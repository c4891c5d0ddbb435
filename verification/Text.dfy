/** Text as the original takes it apart and puts it together: splitting, joining, and numbers. */
module Text {

  /** JavaScript's `split` on one character: never empty, and the separators are gone. */
  function Split(s: string, c: char): (r: seq<string>)
    ensures r != []
    decreases |s|
  {
    if s == "" then [""]
    else
      var rest := Split(s[1..], c);
      if s[0] == c then [""] + rest else [[s[0]] + rest[0]] + rest[1..]
  }

  /** Python's and JavaScript's `join`. */
  function Join(parts: seq<string>, c: char): string {
    if parts == [] then ""
    else if |parts| == 1 then parts[0]
    else Join(parts[..|parts| - 1], c) + [c] + parts[|parts| - 1]
  }

  lemma {:induction false} SplitNothing(s: string, c: char)
    requires c !in s
    ensures Split(s, c) == [s]
    decreases |s|
  {
    if s != "" {
      SplitNothing(s[1..], c);
      assert s == [s[0]] + s[1..];
    }
  }

  lemma HeadOfAppend(a: seq<string>, b: seq<string>, x: char)
    requires a != []
    ensures [[x] + (a + b)[0]] + (a + b)[1..] == ([[x] + a[0]] + a[1..]) + b
  {
  }

  lemma {:induction false} SplitAppend(a: string, b: string, c: char)
    ensures Split(a + [c] + b, c) == Split(a, c) + Split(b, c)
    decreases |a|
  {
    var all := a + [c] + b;
    if a == "" {
      assert all[1..] == b && all[0] == c;
    } else {
      SplitAppend(a[1..], b, c);
      assert all[1..] == a[1..] + [c] + b && all[0] == a[0];
      if a[0] == c {
        assert [""] + (Split(a[1..], c) + Split(b, c)) == [""] + Split(a[1..], c) + Split(b, c);
      } else {
        HeadOfAppend(Split(a[1..], c), Split(b, c), a[0]);
      }
    }
  }

  predicate IsDigit(c: char) {
    '0' <= c <= '9'
  }

  predicate AllDigits(s: string) {
    forall c <- s :: IsDigit(c)
  }

  function Digit(d: nat): (c: char)
    requires d < 10
    ensures IsDigit(c) && c as int - '0' as int == d
  {
    ('0' as int + d) as char
  }

  /** `str(n)`. */
  function Decimal(n: nat): (s: string)
    ensures s != "" && AllDigits(s)
    ensures n < 100 ==> |s| <= 2
  {
    if n < 10 then [Digit(n)] else Decimal(n / 10) + [Digit(n % 10)]
  }

  /** `Number(s)` of a string of digits. */
  function Value(s: string): nat
    requires AllDigits(s)
  {
    if s == "" then 0
    else
      assert forall c <- s[..|s| - 1] :: c in s;
      assert s[|s| - 1] in s;
      10 * Value(s[..|s| - 1]) + (s[|s| - 1] as int - '0' as int)
  }

  /** Reading a number that was written. */
  lemma {:induction false} ValueOfDecimal(n: nat)
    ensures Value(Decimal(n)) == n
  {
    if n < 10 {
      assert Decimal(n)[..0] == "";
    } else {
      ValueOfDecimal(n / 10);
      assert Decimal(n)[..|Decimal(n)| - 1] == Decimal(n / 10);
    }
  }

  lemma DigitsOnly(s: string, c: char)
    requires AllDigits(s) && !IsDigit(c)
    ensures c !in s && Split(s, c) == [s]
  {
    SplitNothing(s, c);
  }

  /** `toLowerCase`, as far as names and hexadecimal digits go. */
  function Lower(s: string): string {
    seq(|s|, i requires 0 <= i < |s| => if 'A' <= s[i] <= 'Z' then (s[i] as int + 32) as char else s[i])
  }

  /** Joining what was split gives the text back. */
  lemma {:induction false} JoinOfSplit(s: string, c: char)
    ensures Join(Split(s, c), c) == s
    decreases |s|
  {
    if s != "" {
      JoinOfSplit(s[1..], c);
      var rest := Split(s[1..], c);
      if s[0] == c {
        JoinCons("", rest, c);
        assert s == "" + [c] + s[1..];
      } else {
        JoinLonger(s[0], rest, c);
        assert s == [s[0]] + s[1..];
      }
    }
  }

  lemma {:induction false} JoinCons(first: string, rest: seq<string>, c: char)
    requires rest != []
    ensures Join([first] + rest, c) == first + [c] + Join(rest, c)
  {
    var all := [first] + rest;
    if |rest| == 1 {
      assert all[..1] == [first];
    } else {
      JoinCons(first, rest[..|rest| - 1], c);
      assert all[..|all| - 1] == [first] + rest[..|rest| - 1];
      assert first + [c] + (Join(rest[..|rest| - 1], c) + [c] + rest[|rest| - 1])
          == (first + [c] + Join(rest[..|rest| - 1], c)) + [c] + rest[|rest| - 1];
    }
  }

  lemma {:induction false} JoinLonger(x: char, parts: seq<string>, c: char)
    requires parts != []
    ensures Join([[x] + parts[0]] + parts[1..], c) == [x] + Join(parts, c)
  {
    if |parts| == 1 {
    } else {
      assert parts == [parts[0]] + parts[1..];
      JoinCons([x] + parts[0], parts[1..], c);
      JoinCons(parts[0], parts[1..], c);
    }
  }

  /** Splitting what was joined gives the parts back, unless a part holds the separator. */
  lemma {:induction false} SplitOfJoin(parts: seq<string>, c: char)
    requires parts != [] && forall p <- parts :: c !in p
    ensures Split(Join(parts, c), c) == parts
  {
    var front, last := parts[..|parts| - 1], parts[|parts| - 1];
    assert last in parts;
    SplitNothing(last, c);
    if front != [] {
      assert forall p <- front :: p in parts;
      SplitOfJoin(front, c);
      SplitAppend(Join(front, c), last, c);
    }
  }
}
