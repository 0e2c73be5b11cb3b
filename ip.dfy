/**
 * Client address and user agent of a request (`src/libs/ip.rs`). The configuration flag, the
 * proxy-reported address, the peer's IP text and the raw User-Agent header are inputs.
 */
module ClientIp {
  import opened Wrappers
  import opened Text
  import Validator

  datatype IpInfo = IpInfo(addr: string, user_agent: string)

  /** `parts` written back with `sep` between neighbours. */
  function Join(parts: seq<string>, sep: char): string
    requires |parts| >= 1
  {
    if |parts| == 1 then parts[0] else parts[0] + [sep] + Join(parts[1..], sep)
  }

  /** `str::split(sep)` collected into a vector: never empty, no part holds `sep`, and joining gives `s` back. */
  function SplitOn(s: string, sep: char): (parts: seq<string>)
    ensures |parts| >= 1
    ensures forall i :: 0 <= i < |parts| ==> sep !in parts[i]
    ensures Join(parts, sep) == s
    decreases |s|
  {
    match Validator.IndexOf(s, sep)
    case None => [s]
    case Some(k) =>
      var rest := SplitOn(s[k + 1..], sep);
      assert s == s[..k] + [sep] + s[k + 1..];
      [s[..k]] + rest
  }

  /** Splitting undoes joining. */
  lemma {:induction false} SplitJoin(parts: seq<string>, sep: char)
    requires |parts| >= 1
    requires forall i :: 0 <= i < |parts| ==> sep !in parts[i]
    ensures SplitOn(Join(parts, sep), sep) == parts
    decreases |parts|
  {
    var s := Join(parts, sep);
    if |parts| == 1 {
      assert Validator.IndexOf(s, sep) == None;
    } else {
      var p := parts[0];
      assert s == p + ([sep] + Join(parts[1..], sep));
      assert s[|p|] == sep && s[..|p|] == p;
      assert Validator.IndexOf(s, sep) == Some(|p|);
      assert s[|p| + 1..] == Join(parts[1..], sep);
      SplitJoin(parts[1..], sep);
    }
  }

  /** The first part is what precedes the first `sep`, or the whole text when there is none. */
  lemma FirstPartBeforeSeparator(s: string, sep: char)
    ensures var first := SplitOn(s, sep)[0];
            first <= s && sep !in first && (first == s || s[|first|] == sep)
  {
  }

  /**
   * `get_ip_info`. Behind a proxy the address is the proxy-reported value up to its first ':'
   * (the `len() > 0` guard always holds); otherwise it is the peer's IP. A User-Agent header that
   * is not visible ASCII reads as "".
   */
  method GetIpInfo(behindProxy: bool, realIpRemoteAddr: Option<string>, peerIp: Option<string>,
                   userAgentHeader: Option<seq<byte>>) returns (info: IpInfo)
    ensures behindProxy && realIpRemoteAddr.Some? ==>
            var v := realIpRemoteAddr.value;
            info.addr <= v && ':' !in info.addr && (info.addr == v || v[|info.addr|] == ':')
    ensures behindProxy && realIpRemoteAddr.None? ==> info.addr == ""
    ensures !behindProxy ==> info.addr == (if peerIp.Some? then peerIp.value else "")
    ensures userAgentHeader.None? ==> info.user_agent == ""
    ensures userAgentHeader.Some? && IsVisibleAscii(userAgentHeader.value) ==>
            info.user_agent == AsciiText(userAgentHeader.value)
    ensures userAgentHeader.Some? && !IsVisibleAscii(userAgentHeader.value) ==> info.user_agent == ""
  {
    var addr := "";
    var userAgent := "";
    if behindProxy {
      if realIpRemoteAddr.Some? {
        var parts := SplitOn(realIpRemoteAddr.value, ':');
        if |parts| > 0 {
          addr := parts[0];
        }
        FirstPartBeforeSeparator(realIpRemoteAddr.value, ':');
      }
    } else {
      if peerIp.Some? {
        addr := peerIp.value;
      }
    }
    if userAgentHeader.Some? {
      userAgent := HeaderText(userAgentHeader.value);
    }
    info := IpInfo(addr, userAgent);
  }
}
