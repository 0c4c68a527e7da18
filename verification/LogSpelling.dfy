/** The two string tables behind the log's words: what ProfileLogger prints and what the emulator compares with. */
module LogSpelling {
  import opened DisplayProtocol
  import opened LogStructs
  import opened LogDocuments

  /** evNames as it is spelled. */
  const EVENT_NAMES: seq<string> := [
    "EVENT_INITIALIZE", "VHAL_DD_EVENT_CREATE_BUFFER", "VHAL_DD_EVENT_REMOVE_BUFFER", "VHAL_DD_EVENT_DISPLAY_REQ",
    "VHAL_DD_EVENT_DISPINFO_REQ", "VHAL_DD_EVENT_DISPPORT_REQ", "VHAL_DD_EVENT_DISPLAY_ACK",
    "VHAL_DD_EVENT_DISPINFO_ACK", "VHAL_DD_EVENT_DISPPORT_ACK", "VHAL_DD_EVENT_SETUP_RESOLUTION",
    "VHAL_DD_EVENT_SET_VIDEO_ALPHA_REQ", "EVENT_UNKNOWN"]

  /** The comparisons of GetEventCode, in its order. */
  function CodeOfText(text: string): u32 {
    if text == "VHAL_DD_EVENT_DISPINFO_REQ" then DISPINFO_REQ
    else if text == "VHAL_DD_EVENT_DISPINFO_ACK" then DISPINFO_ACK
    else if text == "VHAL_DD_EVENT_CREATE_BUFFER" then CREATE_BUFFER
    else if text == "VHAL_DD_EVENT_REMOVE_BUFFER" then REMOVE_BUFFER
    else if text == "VHAL_DD_EVENT_DISPLAY_REQ" then DISPLAY_REQ
    else if text == "VHAL_DD_EVENT_DISPLAY_ACK" then DISPLAY_ACK
    else if text == "VHAL_DD_EVENT_SERVER_IP_REQ" then SERVER_IP_REQ
    else if text == "VHAL_DD_EVENT_SERVER_IP_ACK" then SERVER_IP_ACK
    else if text == "VHAL_DD_EVENT_SERVER_IP_SET" then SERVER_IP_SET
    else if text == "VHAL_DD_EVENT_DISPPORT_REQ" then DISPPORT_REQ
    else if text == "VHAL_DD_EVENT_DISPPORT_ACK" then DISPPORT_ACK
    else if text == "VHAL_DD_EVENT_SETUP_RESOLUTION" then SETUP_RESOLUTION
    else 0
  }

  function DirectionText(kind: LogEvent): string {
    if IsSendEvent(kind) then "send" else "receive"
  }

  function WayOfText(text: string): Way {
    if text == "send" then Receiving else if text == "receive" then Sending else Unknown
  }

  /**
   Going by spelling is going by word: what the logger prints for an event and its direction is, string by string,
   what the emulator's comparisons recognize.
   */
  lemma SpellingsAgree(t: LogEvent)
    ensures |EVENT_NAMES| == |EV_NAMES| && CodeOfText(EVENT_NAMES[t]) == GetEventCode(EV_NAMES[t])
    ensures WayOfText(DirectionText(t)) == (if IsSendEvent(t) then Receiving else Sending)
  {
    assert |"send"| != |"receive"|;
  }

  /** So the code of the name an event is printed under is the event's own, but for two. */
  lemma PrintedNameBack(kind: u32)
    ensures var t := TranslateEvType(kind);
            CodeOfText(EVENT_NAMES[t]) == if t in {EVENT_SET_ALPHA, EVENT_UNKNOWN} then 0 else kind
  {
    SpellingsAgree(TranslateEvType(kind));
    EventNameBack(kind);
    hide CodeOfText;
  }
}
