/** Station events read from `iw event` output (`IwEvent`, `parse_event` in
    `src/main.rs`). A line such as `wlan0: new station 12:34:56:78:9a:bc`
    becomes `New("12:34:56:78:9a:bc")`; anything else is dropped. */
module Events {
  import opened Wrappers
  import opened Tokens

  /** A station associated (`New`) or disassociated (`Del`); the hardware
      address is kept as the text `iw` printed. */
  datatype IwEvent = New(mac: string) | Del(mac: string)

  /** The action word `iw` prints for the event. */
  function Verb(e: IwEvent): string {
    match e
    case New(_) => "new"
    case Del(_) => "del"
  }

  /** `parse_event`: token 1 is the action, token 2 must be `station`,
      token 3 is the address; token 0 and tokens after 3 are ignored. */
  function ParseEvent(line: string): (r: Option<IwEvent>)
    ensures var parts := SplitWhitespace(line);
      r.Some? <==> |parts| >= 4 && parts[2] == "station" && (parts[1] == "new" || parts[1] == "del")
    ensures var parts := SplitWhitespace(line);
      r.Some? ==> r.value.mac == parts[3] && Verb(r.value) == parts[1]
  {
    var parts := SplitWhitespace(line);
    if |parts| >= 4 && parts[2] == "station" then
      var mac := parts[3];
      match parts[1]
      case "new" => Some(New(mac))
      case "del" => Some(Del(mac))
      case _ => None
    else
      None
  }

  /** The line for `e` that `iw` would print after an interface prefix. */
  function EventLine(prefix: string, e: IwEvent, extra: seq<string>): string {
    JoinWithSpaces([prefix, Verb(e), "station", e.mac] + extra)
  }

  /** What a line with the given tokens parses to, when those tokens are
      separated by single spaces. */
  lemma ParseJoinedTokens(parts: seq<string>)
    requires AllTokens(parts)
    ensures ParseEvent(JoinWithSpaces(parts)) ==
      if |parts| >= 4 && parts[2] == "station" && parts[1] == "new" then Some(New(parts[3]))
      else if |parts| >= 4 && parts[2] == "station" && parts[1] == "del" then Some(Del(parts[3]))
      else None
  {
    SplitJoin(parts);
  }

  /** Round trip: an event printed as a line parses back to that event,
      whatever the prefix token and whatever tokens trail the address. */
  lemma ParseEventLine(prefix: string, e: IwEvent, extra: seq<string>)
    requires IsToken(prefix) && IsToken(e.mac) && AllTokens(extra)
    ensures ParseEvent(EventLine(prefix, e, extra)) == Some(e)
  {
    var parts := [prefix, Verb(e), "station", e.mac] + extra;
    assert IsToken(Verb(e));
    assert IsToken("station");
    assert AllTokens(parts) by {
      forall k | 0 <= k < |parts| ensures IsToken(parts[k]) {
        if k >= 4 { assert parts[k] == extra[k - 4]; }
      }
    }
    ParseJoinedTokens(parts);
  }

  /** Only tokens 1 to 3 matter: two lines, however spaced, whose tokens 1
      to 3 agree parse alike, whatever their token 0 and later tokens. */
  lemma ParseIgnoresOtherTokens(a: string, b: string)
    requires |SplitWhitespace(a)| >= 4 && |SplitWhitespace(b)| >= 4
    requires SplitWhitespace(a)[1..4] == SplitWhitespace(b)[1..4]
    ensures ParseEvent(a) == ParseEvent(b)
  {
    var pa, pb := SplitWhitespace(a), SplitWhitespace(b);
    assert pa[1] == pa[1..4][0] && pa[2] == pa[1..4][1] && pa[3] == pa[1..4][2];
    assert pb[1] == pb[1..4][0] && pb[2] == pb[1..4][1] && pb[3] == pb[1..4][2];
    if ParseEvent(a).Some? {
      var ea, eb := ParseEvent(a).value, ParseEvent(b).value;
      assert ea.New? <==> Verb(ea) == "new";
      assert eb.New? <==> Verb(eb) == "new";
    }
  }

  /** An action other than `new` or `del` is dropped even when the rest of
      the line has the right shape. */
  lemma UnknownActionIsDropped(line: string)
    requires |SplitWhitespace(line)| >= 4 && SplitWhitespace(line)[2] == "station"
    requires SplitWhitespace(line)[1] != "new" && SplitWhitespace(line)[1] != "del"
    ensures ParseEvent(line) == None
  {
  }

  /** Surrounding a line with leading whitespace changes nothing. */
  lemma ParseSkipsLeadingWhitespace(ws: string, line: string)
    requires forall i :: 0 <= i < |ws| ==> IsWhitespace(ws[i])
    ensures ParseEvent(ws + line) == ParseEvent(line)
  {
    SplitSkipsWhitespace(ws, line);
  }

  /** The canonical line of four tokens. */
  lemma JoinFour(a: string, b: string, c: string, d: string)
    ensures JoinWithSpaces([a, b, c, d]) == a + " " + b + " " + c + " " + d
  {
    var p := [a, b, c, d];
    assert p[1..] == [b, c, d];
    assert p[1..][1..] == [c, d];
    assert p[1..][1..][1..] == [d];
    assert JoinWithSpaces([c, d]) == c + " " + d;
    assert JoinWithSpaces([b, c, d]) == b + " " + (c + " " + d);
  }

  /** The four-token line `iw` prints, spelled out. */
  lemma ParseStationLine(iface: string, e: IwEvent)
    requires IsToken(iface) && IsToken(e.mac)
    ensures e.New? ==> ParseEvent(iface + " new station " + e.mac) == Some(e)
    ensures e.Del? ==> ParseEvent(iface + " del station " + e.mac) == Some(e)
  {
    ParseEventLine(iface, e, []);
    StationLineSpelled(iface, e);
  }

  /** `EventLine` without trailing tokens, written as one string. */
  lemma StationLineSpelled(iface: string, e: IwEvent)
    ensures e.New? ==> EventLine(iface, e, []) == iface + " new station " + e.mac
    ensures e.Del? ==> EventLine(iface, e, []) == iface + " del station " + e.mac
  {
    assert [iface, Verb(e), "station", e.mac] + [] == [iface, Verb(e), "station", e.mac];
    JoinFour(iface, Verb(e), "station", e.mac);
  }
}
