/**
 The wire between the Android side (or the emulator playing its part) and VirtualHwcReceiver: the structs of
 display-protocol.h and the units a socket carries.
 */
module DisplayProtocol {

  type i16 = x: int | -0x8000 <= x < 0x8000
  type i32 = x: int | -0x8000_0000 <= x < 0x8000_0000
  type u32 = x: int | 0 <= x < 0x1_0000_0000
  type u64 = x: int | 0 <= x < 0x1_0000_0000_0000_0000

  const DISPINFO_REQ: u32 := 0x1000
  const DISPINFO_ACK: u32 := 0x1001
  const CREATE_BUFFER: u32 := 0x1002
  const REMOVE_BUFFER: u32 := 0x1003
  const DISPLAY_REQ: u32 := 0x1004
  const DISPLAY_ACK: u32 := 0x1005
  const SERVER_IP_REQ: u32 := 0x1006
  const SERVER_IP_ACK: u32 := 0x1007
  const SERVER_IP_SET: u32 := 0x1008
  const DISPPORT_REQ: u32 := 0x1700
  const DISPPORT_ACK: u32 := 0x1701
  const SETUP_RESOLUTION: u32 := 0x1800
  const SET_VIDEO_ALPHA_REQ: u32 := 0x1900

  /** display_event_t, the header of every message. */
  datatype DisplayEvent = DisplayEvent(kind: u32, size: u32, id: u32, renderNode: u32)

  /** native_handle_t */
  datatype NativeHandle = NativeHandle(version: i32, numFds: i32, numInts: i32)

  const DRV_MAX_PLANES := 4

  type Fds = s: seq<i32> | |s| == DRV_MAX_PLANES witness [0, 0, 0, 0]
  type Planar = s: seq<u32> | |s| == DRV_MAX_PLANES witness [0, 0, 0, 0]
  type Modifiers = s: seq<u32> | |s| == 2 * DRV_MAX_PLANES witness [0, 0, 0, 0, 0, 0, 0, 0]
  type UseFlags = s: seq<u32> | |s| == 2 witness [0, 0]

  // cros_gralloc_handle, its fields in wire order, grouped.
  datatype Planes = Planes(fds: Fds, strides: Planar, offsets: Planar, sizes: Planar, formatModifiers: Modifiers)

  datatype Extent = Extent(width: u32, height: u32, format: u32, tilingMode: u32, useFlags: UseFlags)

  datatype Usage = Usage(magic: u32, pixelStride: u32, droidFormat: i32, usage: i32, consumerUsage: u32,
                         producerUsage: u32, yuvColorRange: u32)

  datatype Flags = Flags(isUpdated: u32, isEncoded: u32, isEncrypted: u32, isKeyFrame: u32, isInterlaced: u32,
                         isMmcCapable: u32)

  datatype Coding = Coding(compressionMode: u32, compressionHint: u32, codec: u32, alignedWidth: u32,
                           alignedHeight: u32)

  datatype Gralloc = Gralloc(base: NativeHandle, planes: Planes, extent: Extent, usage: Usage, flags: Flags,
                             coding: Coding)

  datatype Viewport = Viewport(l: i16, t: i16, r: i16, b: i16)

  /** display_control_t: bit fields of 1, 1, 2 and 28 bits and a viewport. */
  datatype Control = Control(alpha: u32, topLayer: u32, rotation: u32, reserved: u32, viewport: Viewport)

  /** display_info_t; the three floats are kept as the text "%f" gives them. */
  datatype DisplayInfo = DisplayInfo(flags: u32, width: u32, height: u32, stride: i32, format: i32, xdpi: string,
                                     ydpi: string, fps: string, minSwapInterval: i32, maxSwapInterval: i32,
                                     numFramebuffers: i32)

  datatype DisplayPort = DisplayPort(port: u32, reserve: u32)

  type Reserved = s: seq<u32> | |s| == 3 witness [0, 0, 0]

  /** set_video_alpha_t */
  datatype VideoAlpha = VideoAlpha(enable: u32, reserved: Reserved)

  // sizeof, on the wire and as logged
  const SIZEOF_EVENT := 16
  const SIZEOF_BUFFER_INFO := 8
  const SIZEOF_NATIVE := 12
  const SIZEOF_GRALLOC := 204
  const SIZEOF_CONTROL := 12
  const SIZEOF_VIEWPORT := 8
  const SIZEOF_INFO := 44
  const SIZEOF_PORT := 8
  const SIZEOF_ALPHA := 16

  /** What one write puts on the socket. */
  datatype Unit =
    | Header(ev: DisplayEvent)
    | Info(remote: u64)
    | Handle(handle: Gralloc)
    | Descriptors(fds: seq<i32>)
    | Controls(ctrl: Control)

  const NV12_Y_TILED_INTEL: u32 := FourCc('9', '9', '9', '6')
  const NV12: u32 := FourCc('N', 'V', '1', '2')

  function FourCc(a: char, b: char, c: char, d: char): u32
    requires a < 128 as char && b < 128 as char && c < 128 as char && d < 128 as char
  {
    a as int + b as int * 0x100 + c as int * 0x1_0000 + d as int * 0x100_0000
  }

  /** The 32-bit pattern of x read as a signed number: an int argument, or an unsigned one printed with %d. */
  function Signed32(x: int): i32 {
    var m := x % 0x1_0000_0000;
    if m < 0x8000_0000 then m else m - 0x1_0000_0000
  }

  function Signed64(x: u64): int {
    if x < 0x8000_0000_0000_0000 then x else x - 0x1_0000_0000_0000_0000
  }
}
