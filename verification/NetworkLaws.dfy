/** What the buckets depend on: the address that was written, not how it was written. */
module NetworkLaws {
  import opened Prelude
  import opened Text
  import opened Network

  // ---- One group -------------------------------------------------------------------------------------------------

  function HexDigitValue(c: char): nat
    requires IsHexDigit(c)
  {
    if c <= '9' then c as int - '0' as int
    else if 'a' <= c then c as int - 'a' as int + 10
    else c as int - 'A' as int + 10
  }

  /** The number a group of hexadecimal digits stands for. */
  function HexValue(s: string): nat
    requires forall c <- s :: IsHexDigit(c)
  {
    if s == "" then 0
    else
      assert forall c <- s[..|s| - 1] :: c in s;
      assert s[|s| - 1] in s;
      16 * HexValue(s[..|s| - 1]) + HexDigitValue(s[|s| - 1])
  }

  function HexDigit(d: nat): (c: char)
    requires d < 16
    ensures IsHexDigit(c) && HexDigitValue(c) == d && c != ':'
  {
    if d < 10 then ('0' as int + d) as char else ('a' as int + d - 10) as char
  }

  /** A number in hexadecimal, in lower case and without leading zeros. */
  function Hex(n: nat): (s: string)
    ensures s != "" && ':' !in s && forall c <- s :: IsHexDigit(c)
  {
    if n < 16 then [HexDigit(n)] else Hex(n / 16) + [HexDigit(n % 16)]
  }

  lemma {:induction false} HexRoundTrip(n: nat)
    ensures HexValue(Hex(n)) == n
  {
    if n < 16 {
      assert Hex(n)[..0] == "";
    } else {
      HexRoundTrip(n / 16);
      assert Hex(n)[..|Hex(n)| - 1] == Hex(n / 16);
    }
  }

  lemma LowerLast(s: string, c: char)
    requires IsHexDigit(c)
    ensures Lower(s + [c]) == Lower(s) + [HexDigit(HexDigitValue(c))]
  {
  }

  lemma {:induction false} StripLast(s: string, c: char)
    requires s != ""
    ensures Strip(s + [c]) == if Strip(s) == "0" then [c] else Strip(s) + [c]
    decreases |s|
  {
    if s[0] == '0' {
      assert (s + [c])[1..] == s[1..] + [c];
      if |s| > 1 {
        StripLast(s[1..], c);
      } else {
        assert s == "0" && s[1..] + [c] == [c];
      }
    }
  }

  lemma HexNext(v: nat, d: nat)
    requires d < 16
    ensures Hex(16 * v + d) == if v == 0 then [HexDigit(d)] else Hex(v) + [HexDigit(d)]
  {
    assert (16 * v + d) / 16 == v && (16 * v + d) % 16 == d;
  }

  /** However a group is written, it comes out as the number it stands for. */
  lemma {:induction false} GroupsAreCanonical(s: string)
    requires s != "" && forall c <- s :: IsHexDigit(c)
    ensures Strip(Lower(s)) == Hex(HexValue(s))
  {
    var front, last := s[..|s| - 1], s[|s| - 1];
    assert last in s && s == front + [last];
    assert forall c <- front :: c in s;
    if front == "" {
      LowerLast("", last);
      HexNext(0, HexDigitValue(last));
      assert Lower(s) == [HexDigit(HexDigitValue(last))];
    } else {
      GroupsAreCanonical(front);
      OneMoreDigit(front, last);
    }
  }

  lemma OneMoreDigit(front: string, last: char)
    requires front != "" && IsHexDigit(last) && (forall c <- front :: IsHexDigit(c)) && Strip(Lower(front)) == Hex(HexValue(front))
    ensures (forall c <- front + [last] :: IsHexDigit(c)) && Strip(Lower(front + [last])) == Hex(HexValue(front + [last]))
  {
    LowerLast(front, last);
    HexNext(HexValue(front), HexDigitValue(last));
    StripLast(Lower(front), HexDigit(HexDigitValue(last)));
    OnlyZeroIsZero(HexValue(front));
  }

  lemma OnlyZeroIsZero(n: nat)
    ensures Hex(n) == "0" <==> n == 0
  {
    if n >= 16 {
      assert |Hex(n)| >= 2;
    }
  }

  lemma {:induction false} HexIsInjective(m: nat, n: nat)
    requires Hex(m) == Hex(n)
    ensures m == n
  {
    HexRoundTrip(m);
    HexRoundTrip(n);
  }

  // ---- An address ------------------------------------------------------------------------------------------------

  predicate IsHexChar(c: char) {
    c in {'0', '1', '2', '3', '4', '5', '6', '7', '8', '9', 'a', 'b', 'c', 'd', 'e', 'f', 'A', 'B', 'C', 'D', 'E', 'F'}
  }

  /** One to four hexadecimal digits of either case. */
  predicate IsGroupText(s: string)
    ensures IsGroupText(s) <==> IsGroup(s)
  {
    assert forall c <- s :: IsHexChar(c) <==> IsHexDigit(c);
    1 <= |s| <= 4 && forall c <- s :: IsHexChar(c)
  }

  /** One group each, in up to four hexadecimal digits of either case. */
  ghost predicate Spells(parts: seq<string>, values: seq<nat>) {
    |parts| == |values| && forall i :: 0 <= i < |parts| ==> IsGroupText(parts[i]) && HexValue(parts[i]) == values[i]
  }

  /** What `::` leaves out is zero. */
  ghost predicate Shortens(head: seq<string>, tail: seq<string>, a: seq<nat>) {
    && |a| == 8 && |head| + |tail| <= 8
    && Spells(head, a[..|head|]) && Spells(tail, a[8 - |tail|..])
    && forall i :: |head| <= i < 8 - |tail| ==> a[i] == 0
  }

  /**
   * A text form of section 2.2 of RFC 4291: eight groups, or fewer with one `::` for the zeros that are left out. The
   * original also takes a `::` that leaves out nothing.
   */
  ghost predicate Denotes(text: string, a: seq<nat>) {
    || (exists parts :: |parts| == 8 && Spells(parts, a) && text == Join(parts, ':'))
    || (exists head, tail :: Shortens(head, tail, a) && text == Join(head, ':') + "::" + Join(tail, ':'))
  }

  function HexAll(a: seq<nat>): (r: seq<string>)
    ensures |r| == |a| && forall i :: 0 <= i < |a| ==> r[i] == Hex(a[i])
  {
    seq(|a|, i requires 0 <= i < |a| => Hex(a[i]))
  }

  // ---- Splitting on `::` -----------------------------------------------------------------------------------------

  predicate DoubleAt(s: string, i: nat) {
    i + 1 < |s| && s[i] == ':' && s[i + 1] == ':'
  }

  ghost predicate NoDouble(s: string) {
    forall i: nat :: !DoubleAt(s, i)
  }

  lemma {:induction false} SplitDoubleNothing(s: string)
    requires NoDouble(s)
    ensures SplitDouble(s) == [s]
    decreases |s|
  {
    if s != "" {
      assert forall i: nat :: DoubleAt(s[1..], i) ==> DoubleAt(s, i + 1);
      assert !DoubleAt(s, 0);
      SplitDoubleNothing(s[1..]);
      assert s == [s[0]] + s[1..];
    }
  }

  lemma {:induction false} SplitDoubleOnce(a: string, b: string)
    requires NoDouble(a) && (a != "" ==> a[|a| - 1] != ':')
    ensures SplitDouble(a + "::" + b) == [a] + SplitDouble(b)
    decreases |a|
  {
    var s := a + "::" + b;
    if a == "" {
      assert s[2..] == b;
    } else {
      assert s[1..] == a[1..] + "::" + b;
      assert forall i: nat :: DoubleAt(a[1..], i) ==> DoubleAt(a, i + 1);
      assert !DoubleAt(a, 0);
      assert s[0] == a[0] && !(s[0] == ':' && s[1] == ':');
      SplitDoubleOnce(a[1..], b);
      assert a == [a[0]] + a[1..];
    }
  }

  lemma {:induction false} JoinOfDouble(s: string)
    ensures |SplitDouble(s)| == 1 ==> SplitDouble(s)[0] == s
    ensures |SplitDouble(s)| == 2 ==> s == SplitDouble(s)[0] + "::" + SplitDouble(s)[1]
    decreases |s|
  {
    var parts := SplitDouble(s);
    if s == "" {
    } else if |s| >= 2 && s[0] == ':' && s[1] == ':' {
      JoinOfDouble(s[2..]);
      assert parts == [""] + SplitDouble(s[2..]);
      assert s == "" + "::" + s[2..];
    } else {
      var rest := SplitDouble(s[1..]);
      JoinOfDouble(s[1..]);
      assert parts == [[s[0]] + rest[0]] + rest[1..];
      assert s == [s[0]] + s[1..];
      if |parts| == 2 {
        assert parts[1] == rest[1];
        LongerHead(s[0], rest[0], rest[1]);
      }
    }
  }

  lemma LongerHead(c: char, head: string, tail: string)
    ensures [c] + (head + "::" + tail) == ([c] + head) + "::" + tail
  {
  }

  lemma {:induction false} JoinOfGroups(parts: seq<string>)
    requires parts != [] && forall p <- parts :: IsGroup(p)
    ensures var s := Join(parts, ':');
            s != "" && NoDouble(s) && s[0] != ':' && s[|s| - 1] != ':'
  {
    var front, last := parts[..|parts| - 1], parts[|parts| - 1];
    assert last in parts;
    NoColon(last);
    if front != [] {
      assert forall p <- front :: p in parts;
      JoinOfGroups(front);
      NoDoubleAcross(Join(front, ':'), last);
    }
  }

  lemma NoDoubleAcross(a: string, b: string)
    requires NoDouble(a) && NoDouble(b) && a != "" && b != "" && a[|a| - 1] != ':' && b[0] != ':'
    ensures NoDouble(a + [':'] + b)
  {
    forall i: nat
      ensures !DoubleAt(a + [':'] + b, i)
    {
      assert !DoubleAt(a, i);
      if i > |a| {
        assert !DoubleAt(b, i - |a| - 1);
      }
    }
  }

  lemma NoColon(group: string)
    requires IsGroup(group)
    ensures ':' !in group && group[0] != ':' && group[|group| - 1] != ':' && NoDouble(group)
  {
    assert group[0] in group && group[|group| - 1] in group;
    assert forall i :: 0 <= i < |group| ==> group[i] in group;
  }

  /** The parts of a half that groups were joined into are those groups. */
  lemma PartsOfGroups(parts: seq<string>)
    requires forall p <- parts :: IsGroup(p)
    ensures Parts(Join(parts, ':')) == parts && SplitDouble(Join(parts, ':')) == [Join(parts, ':')]
    ensures NoDouble(Join(parts, ':')) && (Join(parts, ':') != "" ==> Join(parts, ':')[|Join(parts, ':')| - 1] != ':')
  {
    if parts != [] {
      forall p <- parts
        ensures ':' !in p
      {
        NoColon(p);
      }
      JoinOfGroups(parts);
      SplitOfJoin(parts, ':');
    }
    SplitDoubleNothing(Join(parts, ':'));
  }

  lemma SpelledAreGroups(parts: seq<string>, values: seq<nat>)
    requires Spells(parts, values)
    ensures forall p <- parts :: IsGroup(p)
    ensures Canonical(parts) == HexAll(values)
  {
    forall i | 0 <= i < |parts|
      ensures Canonical(parts)[i] == HexAll(values)[i]
    {
      GroupsAreCanonical(parts[i]);
    }
  }

  // ---- Reading -----------------------------------------------------------------------------------------------------

  lemma {:induction false} ReadsEightGroups(parts: seq<string>, a: seq<nat>)
    requires |parts| == 8 && Spells(parts, a)
    ensures ExpandIPv6(Join(parts, ':')) == Some(HexAll(a))
  {
    SpelledAreGroups(parts, a);
    PartsOfGroups(parts);
  }

  lemma {:induction false} FilledSpells(head: seq<string>, tail: seq<string>, a: seq<nat>)
    requires Shortens(head, tail, a)
    ensures Spells(FillUp(head, tail), a)
  {
    var all := FillUp(head, tail);
    forall i | 0 <= i < 8
      ensures IsGroup(all[i]) && HexValue(all[i]) == a[i]
    {
      if i < |head| {
        assert all[i] == head[i] && a[..|head|][i] == a[i];
      } else if i < 8 - |tail| {
        assert all[i] == Zeros(8 - |head| - |tail|)[i - |head|] == "0";
        assert "0"[..0] == "";
      } else {
        assert all[i] == tail[i - (8 - |tail|)] && a[8 - |tail|..][i - (8 - |tail|)] == a[i];
      }
    }
  }

  lemma FilledOfHalves(head: seq<string>, tail: seq<string>)
    requires (forall p <- head :: IsGroup(p)) && (forall p <- tail :: IsGroup(p))
    ensures Filled(SplitDouble(Join(head, ':') + "::" + Join(tail, ':'))) == Some(FillUp(head, tail))
  {
    var h, t := Join(head, ':'), Join(tail, ':');
    PartsOfGroups(head);
    PartsOfGroups(tail);
    SplitDoubleOnce(h, t);
    assert SplitDouble(h + "::" + t) == [h, t];
  }

  lemma {:induction false} ReadsShortened(head: seq<string>, tail: seq<string>, a: seq<nat>)
    requires Shortens(head, tail, a)
    ensures ExpandIPv6(Join(head, ':') + "::" + Join(tail, ':')) == Some(HexAll(a))
  {
    SpelledAreGroups(head, a[..|head|]);
    SpelledAreGroups(tail, a[8 - |tail|..]);
    FilledOfHalves(head, tail);
    FilledSpells(head, tail, a);
    SpelledAreGroups(FillUp(head, tail), a);
  }

  /** Whatever the placement of `::`, the case and the leading zeros, a text expands to the groups of its address. */
  lemma {:induction false} EveryFormIsRead(text: string, a: seq<nat>)
    requires Denotes(text, a)
    ensures ExpandIPv6(text) == Some(HexAll(a))
  {
    if parts :| |parts| == 8 && Spells(parts, a) && text == Join(parts, ':') {
      ReadsEightGroups(parts, a);
    } else {
      var head, tail :| Shortens(head, tail, a) && text == Join(head, ':') + "::" + Join(tail, ':');
      ReadsShortened(head, tail, a);
    }
  }

  function Values(parts: seq<string>): (r: seq<nat>)
    ensures |r| == |parts|
    ensures forall i :: 0 <= i < |parts| ==> IsGroup(parts[i]) ==> r[i] == HexValue(parts[i])
  {
    seq(|parts|, i requires 0 <= i < |parts| => if IsGroup(parts[i]) then HexValue(parts[i]) else 0)
  }

  lemma JoinOfParts(half: string)
    ensures Join(Parts(half), ':') == half
  {
    JoinOfSplit(half, ':');
  }

  /** Nothing else is read. */
  lemma {:induction false} OnlyFormsAreRead(text: string) returns (a: seq<nat>)
    requires ExpandIPv6(text).Some?
    ensures Denotes(text, a) && ExpandIPv6(text) == Some(HexAll(a))
  {
    var halves := SplitDouble(text);
    var groups := Filled(halves).value;
    assert forall i :: 0 <= i < |groups| ==> groups[i] in groups;
    a := Values(groups);
    assert Spells(groups, a);
    JoinOfDouble(text);
    JoinOfParts(halves[0]);
    if |halves| == 1 {
      assert text == Join(groups, ':');
    } else {
      JoinOfParts(halves[1]);
      var head, tail := Parts(halves[0]), Parts(halves[1]);
      assert groups == FillUp(head, tail);
      ShortensWhatIsFilled(head, tail, a);
    }
    EveryFormIsRead(text, a);
  }

  lemma {:induction false} ShortensWhatIsFilled(head: seq<string>, tail: seq<string>, a: seq<nat>)
    requires |head| + |tail| <= 8 && Spells(FillUp(head, tail), a)
    ensures Shortens(head, tail, a)
  {
    var all := FillUp(head, tail);
    forall i | 0 <= i < |head|
      ensures IsGroup(head[i]) && HexValue(head[i]) == a[..|head|][i]
    {
      assert all[i] == head[i];
    }
    forall i | 0 <= i < |tail|
      ensures IsGroup(tail[i]) && HexValue(tail[i]) == a[8 - |tail|..][i]
    {
      assert all[8 - |tail| + i] == tail[i];
    }
    forall i | |head| <= i < 8 - |tail|
      ensures a[i] == 0
    {
      assert all[i] == Zeros(8 - |head| - |tail|)[i - |head|] == "0";
      assert "0"[..0] == "";
    }
  }

  /** Two texts expand to the same groups exactly when they denote the same address. */
  lemma {:induction false} SameAddressSameGroups(text: string, a: seq<nat>, other: string, b: seq<nat>)
    requires Denotes(text, a) && Denotes(other, b)
    ensures ExpandIPv6(text) == ExpandIPv6(other) <==> a == b
  {
    EveryFormIsRead(text, a);
    EveryFormIsRead(other, b);
    if HexAll(a) == HexAll(b) {
      forall i | 0 <= i < 8
        ensures a[i] == b[i]
      {
        assert HexAll(a)[i] == HexAll(b)[i];
        HexIsInjective(a[i], b[i]);
      }
      assert a == b;
    }
  }

  // ---- The buckets -------------------------------------------------------------------------------------------------

  function NetworkBucket(a: seq<nat>): string
    requires |a| == 8
  {
    Join(HexAll(a)[..3], ':') + "::/48"
  }

  function AddressBucket(a: seq<nat>): string
    requires |a| == 8
  {
    Join(HexAll(a)[..4], ':') + "::/64"
  }

  lemma {:induction false} NoDotInGroups(parts: seq<string>)
    requires forall p <- parts :: IsGroup(p)
    ensures '.' !in Join(parts, ':') && (|parts| >= 2 ==> ':' in Join(parts, ':'))
  {
    if parts != [] {
      var front, last := parts[..|parts| - 1], parts[|parts| - 1];
      assert last in parts && '.' !in last;
      assert forall p <- front :: p in parts;
      NoDotInGroups(front);
    }
  }

  /** An IPv6 text is not an IPv4 address in a hat. */
  lemma {:induction false} FormsHaveNoDot(text: string, a: seq<nat>)
    requires Denotes(text, a)
    ensures Unmapped(text) == text && ':' in text
  {
    if parts :| |parts| == 8 && Spells(parts, a) && text == Join(parts, ':') {
      SpelledAreGroups(parts, a);
      NoDotInGroups(parts);
    } else {
      var head, tail :| Shortens(head, tail, a) && text == Join(head, ':') + "::" + Join(tail, ':');
      SpelledAreGroups(head, a[..|head|]);
      SpelledAreGroups(tail, a[8 - |tail|..]);
      NoDotInGroups(head);
      NoDotInGroups(tail);
      assert text[|Join(head, ':')|] == ':';
    }
    NoDotNoHat(text);
  }

  lemma NoDotNoHat(text: string)
    requires '.' !in text
    ensures Unmapped(text) == text
  {
    if |text| > 7 {
      SplitNothing(text[7..], '.');
    }
  }

  lemma {:induction false} BucketsOf(text: string, a: seq<nat>)
    requires Denotes(text, a) && |a| == 8
    ensures NetworkOf(Some(text)) == NetworkBucket(a) && AddressOf(Some(text)) == AddressBucket(a)
  {
    EveryFormIsRead(text, a);
    FormsHaveNoDot(text, a);
  }

  lemma SameSuffix(a: string, b: string, suffix: string)
    requires a + suffix == b + suffix
    ensures a == b
  {
    assert |a| == |b|;
    assert a == (a + suffix)[..|a|] && b == (b + suffix)[..|b|];
  }

  lemma {:induction false} JoinedGroupsAreInjective(a: seq<nat>, b: seq<nat>, n: nat)
    requires 0 < n <= |a| && n <= |b| && Join(HexAll(a)[..n], ':') == Join(HexAll(b)[..n], ':')
    ensures a[..n] == b[..n]
  {
    SplitOfJoin(HexAll(a)[..n], ':');
    SplitOfJoin(HexAll(b)[..n], ':');
    forall i | 0 <= i < n
      ensures a[i] == b[i]
    {
      assert HexAll(a)[..n][i] == Hex(a[i]) && HexAll(b)[..n][i] == Hex(b[i]);
      HexIsInjective(a[i], b[i]);
    }
  }

  lemma SameGroupsSameText(a: seq<nat>, b: seq<nat>, n: nat)
    requires n <= |a| && n <= |b| && a[..n] == b[..n]
    ensures HexAll(a)[..n] == HexAll(b)[..n]
  {
    assert forall i :: 0 <= i < n ==> a[i] == a[..n][i] && b[i] == b[..n][i];
  }

  /**
   * Two IPv6 texts share a network exactly when their first three groups agree, and a line when the fourth does too.
   */
  lemma {:induction false} BucketsAreGroups(text: string, a: seq<nat>, other: string, b: seq<nat>)
    requires Denotes(text, a) && Denotes(other, b) && |a| == |b| == 8
    ensures NetworkOf(Some(text)) == NetworkOf(Some(other)) <==> a[..3] == b[..3]
    ensures AddressOf(Some(text)) == AddressOf(Some(other)) <==> a[..4] == b[..4]
  {
    BucketsOf(text, a);
    BucketsOf(other, b);
    if NetworkBucket(a) == NetworkBucket(b) {
      SameSuffix(Join(HexAll(a)[..3], ':'), Join(HexAll(b)[..3], ':'), "::/48");
      JoinedGroupsAreInjective(a, b, 3);
    }
    if AddressBucket(a) == AddressBucket(b) {
      SameSuffix(Join(HexAll(a)[..4], ':'), Join(HexAll(b)[..4], ':'), "::/64");
      JoinedGroupsAreInjective(a, b, 4);
    }
    if a[..3] == b[..3] {
      SameGroupsSameText(a, b, 3);
    }
    if a[..4] == b[..4] {
      SameGroupsSameText(a, b, 4);
    }
  }

  datatype Origin = Nowhere | OnIPv4 | OnIPv6(groups: seq<nat>)

  /** The network of an IPv4 address, from the address. */
  function NetworkOfOctets(address: string): string {
    if |Split(address, '.')| == 4 then Join(Split(address, '.')[..3], '.') + ".0/24" else UNKNOWN
  }

  ghost predicate ComesFrom(ip: Option<string>, o: Origin) {
    match o
    case Nowhere => AddressOf(ip) == UNKNOWN && NetworkOf(ip) == UNKNOWN
    case OnIPv4 => ':' !in AddressOf(ip) && |Split(AddressOf(ip), '.')| == 4 && NetworkOf(ip) == NetworkOfOctets(AddressOf(ip))
    case OnIPv6(a) => |a| == 8 && AddressOf(ip) == AddressBucket(a) && NetworkOf(ip) == NetworkBucket(a)
  }

  lemma {:induction false} Trace(ip: Option<string>) returns (o: Origin)
    ensures ComesFrom(ip, o)
  {
    o := Nowhere;
    if ip.Some? && ip.value != "" {
      var address := Unmapped(ip.value);
      if ':' !in address {
        o := if IsIPv4(Split(address, '.')) then OnIPv4 else Nowhere;
      } else if ExpandIPv6(address).Some? {
        var a := OnlyFormsAreRead(address);
        o := OnIPv6(a);
      }
    }
  }

  lemma UnknownIsNoAddress(a: seq<nat>)
    requires |a| == 8
    ensures ':' !in UNKNOWN && |Split(UNKNOWN, '.')| == 1 && ':' in AddressBucket(a)
  {
    SplitNothing(UNKNOWN, '.');
    assert AddressBucket(a)[|Join(HexAll(a)[..4], ':')|] == ':';
  }

  lemma {:induction false} SameLineSameNetwork(a: seq<nat>, b: seq<nat>)
    requires |a| == |b| == 8 && AddressBucket(a) == AddressBucket(b)
    ensures NetworkBucket(a) == NetworkBucket(b)
  {
    SameSuffix(Join(HexAll(a)[..4], ':'), Join(HexAll(b)[..4], ':'), "::/64");
    JoinedGroupsAreInjective(a, b, 4);
    assert a[..3] == a[..4][..3] && b[..3] == b[..4][..3];
    SameGroupsSameText(a, b, 3);
  }

  /** Whatever the input, one line is in one network: the narrow rule never tells apart what the wide one does not. */
  lemma {:induction false} OneLineOneNetwork(ip: Option<string>, other: Option<string>)
    requires AddressOf(ip) == AddressOf(other)
    ensures NetworkOf(ip) == NetworkOf(other)
  {
    var o := Trace(ip);
    var p := Trace(other);
    if o.OnIPv6? {
      UnknownIsNoAddress(o.groups);
    }
    if p.OnIPv6? {
      UnknownIsNoAddress(p.groups);
    }
    SplitNothing(UNKNOWN, '.');
    if o.OnIPv6? && p.OnIPv6? {
      SameLineSameNetwork(o.groups, p.groups);
    }
  }

  // ---- IPv4 ------------------------------------------------------------------------------------------------------

  /** Four numbers up to 255, in one to three digits each, with dots between them. */
  ghost predicate IsDotted(text: string, octets: seq<string>) {
    && |octets| == 4 && text == Join(octets, '.')
    && forall i :: 0 <= i < 4 ==> AllDigits(octets[i]) && 1 <= |octets[i]| <= 3 && Value(octets[i]) <= 255
  }

  lemma DottedWhen(text: string, octets: seq<string>)
    ensures IsDotted(text, octets) <==> octets == Split(text, '.') && IsIPv4(octets)
  {
    JoinOfSplit(text, '.');
    if IsDotted(text, octets) {
      forall o <- octets
        ensures '.' !in o && IsOctet(o)
      {
        var i :| 0 <= i < 4 && octets[i] == o;
      }
      SplitOfJoin(octets, '.');
    }
    if octets == Split(text, '.') && IsIPv4(octets) {
      forall i | 0 <= i < 4
        ensures AllDigits(octets[i]) && 1 <= |octets[i]| <= 3 && Value(octets[i]) <= 255
      {
        assert octets[i] in octets;
      }
    }
  }

  lemma NoColonNoHat(text: string)
    requires ':' !in text
    ensures Unmapped(text) == text
  {
    if |text| > 7 {
      assert text[0] in text;
      assert Lower(text[..7])[0] != ':';
    }
  }

  /**
   * A text without a colon is in the network of its first three numbers, and a line of its own, exactly if it is a
   * dotted IPv4 address; any other one is unknown.
   */
  lemma DottedBuckets(text: string)
    requires ':' !in text
    ensures forall o: seq<string> :: IsDotted(text, o) ==>
              AddressOf(Some(text)) == text && NetworkOf(Some(text)) == Join(o[..3], '.') + ".0/24"
    ensures (forall o: seq<string> :: !IsDotted(text, o)) ==>
              AddressOf(Some(text)) == "unknown" && NetworkOf(Some(text)) == "unknown"
    ensures AddressOf(None) == "unknown" && NetworkOf(None) == "unknown"
  {
    NoColonNoHat(text);
    SplitNothing("", '.');
    forall o: seq<string>
      ensures IsDotted(text, o) <==> o == Split(text, '.') && IsIPv4(o)
    {
      DottedWhen(text, o);
    }
    assert IsDotted(text, Split(text, '.')) <==> IsIPv4(Split(text, '.'));
  }

  /** A text with a colon that is in no hat is unknown exactly if nothing is read of it. */
  lemma UnreadIsUnknown(text: string)
    requires ':' in text && Unmapped(text) == text
    ensures ExpandIPv6(text).None? <==> AddressOf(Some(text)) == "unknown"
    ensures ExpandIPv6(text).None? <==> NetworkOf(Some(text)) == "unknown"
  {
    if ExpandIPv6(text).Some? {
      var line := AddressOf(Some(text));
      var groups := ExpandIPv6(text).value;
      assert line == Join(groups[..4], ':') + "::/64";
      assert line[|line| - 1] == '4';
      assert NetworkOf(Some(text)) == Join(groups[..3], ':') + "::/48";
      assert NetworkOf(Some(text))[|NetworkOf(Some(text))| - 1] == '8';
    }
  }

  /** An IPv4 address counts as itself in an IPv6 hat, whatever the case of the hat. */
  lemma {:induction false} HatsDoNotMatter(hat: string, address: string)
    requires Lower(hat) == "::ffff:" && IsIPv4(Split(address, '.'))
    ensures NetworkOf(Some(hat + address)) == NetworkOf(Some(address))
    ensures AddressOf(Some(hat + address)) == AddressOf(Some(address)) == address
  {
    assert (hat + address)[..7] == hat && (hat + address)[7..] == address;
    JoinOfSplit(address, '.');
    NoColonInOctets(Split(address, '.'));
    assert address != "";
    NoColonNoHat(address);
  }

  lemma {:induction false} NoColonInOctets(octets: seq<string>)
    requires forall o <- octets :: IsOctet(o)
    ensures ':' !in Join(octets, '.')
    ensures octets != [] ==> Join(octets, '.') != ""
  {
    if octets != [] {
      var front, last := octets[..|octets| - 1], octets[|octets| - 1];
      assert last in octets && ':' !in last;
      assert forall o <- front :: o in octets;
      NoColonInOctets(front);
    }
  }
}
