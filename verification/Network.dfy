/** The two buckets a sign-up is counted in: the network it came from, and the line. */
module Network {
  import opened Prelude
  import opened Text

  /** `split("::")`: from the left, without overlap. */
  function SplitDouble(s: string): (r: seq<string>)
    ensures r != []
    decreases |s|
  {
    if s == "" then [""]
    else if |s| >= 2 && s[0] == ':' && s[1] == ':' then [""] + SplitDouble(s[2..])
    else
      var rest := SplitDouble(s[1..]);
      [[s[0]] + rest[0]] + rest[1..]
  }

  predicate IsHexDigit(c: char) {
    '0' <= c <= '9' || 'a' <= c <= 'f' || 'A' <= c <= 'F'
  }

  /** `/^[0-9a-f]{1,4}$/i`. */
  predicate IsGroup(s: string) {
    1 <= |s| <= 4 && forall c <- s :: IsHexDigit(c)
  }

  /** `replace(/^0+(?=.)/, "")`. */
  function Strip(s: string): string {
    if |s| > 1 && s[0] == '0' then Strip(s[1..]) else s
  }

  function Parts(half: string): seq<string> {
    if half == "" then [] else Split(half, ':')
  }

  function Zeros(n: nat): (r: seq<string>)
    ensures |r| == n && forall z <- r :: z == "0"
  {
    seq(n, i => "0")
  }

  /** What stands between a head and a tail of groups: zeros, up to eight groups in all. */
  function FillUp(head: seq<string>, tail: seq<string>): seq<string> {
    head + Zeros(Max(0, 8 - |head| - |tail|)) + tail
  }

  /** The groups as they are written, `::` filled in. */
  function Filled(halves: seq<string>): Option<seq<string>> {
    if |halves| == 1 then Some(Parts(halves[0]))
    else if |halves| == 2 then Some(FillUp(Parts(halves[0]), Parts(halves[1])))
    else None
  }

  function Canonical(groups: seq<string>): (r: seq<string>)
    ensures |r| == |groups| && forall i :: 0 <= i < |groups| ==> r[i] == Strip(Lower(groups[i]))
  {
    seq(|groups|, i requires 0 <= i < |groups| => Strip(Lower(groups[i])))
  }

  /** `expandIPv6`. */
  function ExpandIPv6(address: string): (r: Option<seq<string>>)
    ensures r.Some? ==> |r.value| == 8
  {
    var groups := Filled(SplitDouble(address));
    if groups.None? || |groups.value| != 8 then None
    else if exists g <- groups.value :: !IsGroup(g) then None
    else Some(Canonical(groups.value))
  }

  predicate IsOctet(s: string) {
    1 <= |s| <= 3 && AllDigits(s) && Value(s) <= 255
  }

  predicate IsIPv4(octets: seq<string>) {
    |octets| == 4 && forall o <- octets :: IsOctet(o)
  }

  /** `/^::ffff:(\d+\.\d+\.\d+\.\d+)$/i`: an IPv4 address in an IPv6 hat. */
  function Unmapped(ip: string): string {
    if |ip| > 7 && Lower(ip[..7]) == "::ffff:"
       && |Split(ip[7..], '.')| == 4 && forall d <- Split(ip[7..], '.') :: d != "" && AllDigits(d)
    then ip[7..] else ip
  }

  const UNKNOWN := "unknown"

  function NetworkOf(ip: Option<string>): string {
    if ip.None? || ip.value == "" then UNKNOWN
    else
      var address := Unmapped(ip.value);
      if ':' in address then
        var groups := ExpandIPv6(address);
        if groups.None? then UNKNOWN else Join(groups.value[..3], ':') + "::/48"
      else
        var octets := Split(address, '.');
        if IsIPv4(octets) then Join(octets[..3], '.') + ".0/24" else UNKNOWN
  }

  function AddressOf(ip: Option<string>): string {
    if ip.None? || ip.value == "" then UNKNOWN
    else
      var address := Unmapped(ip.value);
      if ':' in address then
        var groups := ExpandIPv6(address);
        if groups.None? then UNKNOWN else Join(groups.value[..4], ':') + "::/64"
      else if IsIPv4(Split(address, '.')) then address else UNKNOWN
  }
}
