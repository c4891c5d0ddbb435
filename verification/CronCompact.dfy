/** The Python client's writer of cron fields: what it writes stands for the values it was given, and is accepted. */
module CronCompact {
  import opened Prelude
  import opened Text
  import opened CronFields

  ghost predicate Increasing(s: seq<nat>) {
    forall i, j :: 0 <= i < j < |s| ==> s[i] < s[j]
  }

  /** `list(range(low, high + 1, step))`. */
  function Range(low: nat, high: nat, step: nat): seq<nat>
    requires step > 0
    decreases high + 1 - low
  {
    if low > high then [] else [low] + Range(low + step, high, step)
  }

  /** Maximal runs of consecutive values, first and last. */
  function Runs(s: seq<nat>): (r: seq<(nat, nat)>)
    ensures s != [] ==> r != [] && r[|r| - 1].1 == s[|s| - 1]
    ensures s == [] ==> r == []
  {
    if s == [] then []
    else
      var runs, value := Runs(s[..|s| - 1]), s[|s| - 1];
      if runs != [] && value == runs[|runs| - 1].1 + 1
      then runs[..|runs| - 1] + [(runs[|runs| - 1].0, value)]
      else runs + [(value, value)]
  }

  function Write(run: (nat, nat)): string {
    if run.0 == run.1 then Decimal(run.0)
    else if run.1 >= run.0 + 2 then Decimal(run.0) + "-" + Decimal(run.1)
    else Decimal(run.0) + "," + Decimal(run.1)
  }

  function WriteAll(runs: seq<(nat, nat)>): seq<string> {
    seq(|runs|, i requires 0 <= i < |runs| => Write(runs[i]))
  }

  /** What `compact` returns for the values in order. */
  function Field(ordered: seq<nat>, low: nat, high: nat): string {
    if ordered == Range(low, high, 1) then "*"
    else if |ordered| > 2 && ordered[0] == low && ordered[1] > low + 1 && ordered == Range(low, high, ordered[1] - low)
    then "*/" + Decimal(ordered[1] - low)
    else Join(WriteAll(Runs(ordered)), ',')
  }

  // ---- The runs --------------------------------------------------------------------------------------------------

  predicate Within(v: nat, first: nat, last: nat) {
    first <= v <= last
  }

  function Between(first: nat, last: nat): set<nat> {
    set v: nat | v <= last && Within(v, first, last)
  }

  function Covered(runs: seq<(nat, nat)>): set<nat> {
    if runs == [] then {} else Covered(runs[..|runs| - 1]) + Between(runs[|runs| - 1].0, runs[|runs| - 1].1)
  }

  ghost predicate Upward(runs: seq<(nat, nat)>) {
    forall i :: 0 <= i < |runs| ==> runs[i].0 <= runs[i].1
  }

  lemma LongerRun(runs: seq<(nat, nat)>)
    requires runs != [] && Upward(runs)
    ensures var last := runs[|runs| - 1];
            var longer := runs[..|runs| - 1] + [(last.0, last.1 + 1)];
            Upward(longer) && Covered(longer) == Covered(runs) + {last.1 + 1}
  {
    var last := runs[|runs| - 1];
    var longer := runs[..|runs| - 1] + [(last.0, last.1 + 1)];
    assert longer[..|longer| - 1] == runs[..|runs| - 1];
    assert Between(last.0, last.1 + 1) == Between(last.0, last.1) + {last.1 + 1};
  }

  lemma OneMoreRun(runs: seq<(nat, nat)>, value: nat)
    requires Upward(runs)
    ensures Upward(runs + [(value, value)]) && Covered(runs + [(value, value)]) == Covered(runs) + {value}
  {
    var more := runs + [(value, value)];
    assert more[..|more| - 1] == runs;
    assert Between(value, value) == {value};
  }

  /** The runs cover the values and nothing else. */
  lemma {:induction false} RunsCover(s: seq<nat>)
    ensures Upward(Runs(s)) && Covered(Runs(s)) == Elements(s)
  {
    if s != [] {
      var front, value := s[..|s| - 1], s[|s| - 1];
      RunsCover(front);
      assert Elements(s) == Elements(front) + {value};
      if Runs(front) != [] && value == Runs(front)[|Runs(front)| - 1].1 + 1 {
        LongerRun(Runs(front));
      } else {
        OneMoreRun(Runs(front), value);
      }
    }
  }

  // ---- What a run stands for -------------------------------------------------------------------------------------

  lemma {:induction false} MeaningOfNumber(n: nat, low: nat, high: nat)
    ensures Meaning(Decimal(n), low, high) == {n}
  {
    DigitsOnly(Decimal(n), ',');
    DigitsOnly(Decimal(n), '/');
    DigitsOnly(Decimal(n), '-');
    ValueOfDecimal(n);
    assert Decimal(n)[0] in Decimal(n);
    MeaningOfEntry(Decimal(n), low, high);
  }

  lemma {:induction false} SplitSpan(a: nat, b: nat)
    ensures var text := Decimal(a) + "-" + Decimal(b);
            && ',' !in text && Split(text, '/') == [text] && Split(text, '-') == [Decimal(a), Decimal(b)]
  {
    var text := Decimal(a) + "-" + Decimal(b);
    DigitsOnly(Decimal(a), ',');
    DigitsOnly(Decimal(b), ',');
    DigitsOnly(Decimal(a), '/');
    DigitsOnly(Decimal(b), '/');
    SplitNothing(text, '/');
    DigitsOnly(Decimal(a), '-');
    DigitsOnly(Decimal(b), '-');
    SplitAppend(Decimal(a), Decimal(b), '-');
  }

  lemma {:induction false} MeaningOfSpan(a: nat, b: nat, low: nat, high: nat)
    ensures Meaning(Decimal(a) + "-" + Decimal(b), low, high) == Between(a, b)
  {
    var text := Decimal(a) + "-" + Decimal(b);
    SplitSpan(a, b);
    ValueOfDecimal(a);
    ValueOfDecimal(b);
    assert Decimal(a)[0] in Decimal(a) && text[0] == Decimal(a)[0];
    MeaningOfEntry(text, low, high);
    assert Steps(a, b, 1) == Between(a, b);
  }

  lemma {:induction false} MeaningOfRun(run: (nat, nat), low: nat, high: nat)
    requires run.0 <= run.1
    ensures Meaning(Write(run), low, high) == Between(run.0, run.1)
  {
    if run.0 == run.1 {
      MeaningOfNumber(run.0, low, high);
    } else if run.1 >= run.0 + 2 {
      MeaningOfSpan(run.0, run.1, low, high);
    } else {
      MeaningOfNumber(run.0, low, high);
      MeaningOfNumber(run.1, low, high);
      MeaningOfList(Decimal(run.0), Decimal(run.1), low, high);
    }
  }

  lemma JoinNext(runs: seq<(nat, nat)>)
    requires runs != []
    ensures var front := runs[..|runs| - 1];
            Join(WriteAll(runs), ',') ==
            if front == [] then Write(runs[0]) else Join(WriteAll(front), ',') + "," + Write(runs[|runs| - 1])
  {
    assert WriteAll(runs)[..|runs| - 1] == WriteAll(runs[..|runs| - 1]);
  }

  lemma {:induction false} MeaningOfRuns(runs: seq<(nat, nat)>, low: nat, high: nat)
    requires runs != [] && Upward(runs)
    ensures Meaning(Join(WriteAll(runs), ','), low, high) == Covered(runs)
  {
    var front, last := runs[..|runs| - 1], runs[|runs| - 1];
    JoinNext(runs);
    MeaningOfRun(last, low, high);
    if front != [] {
      MeaningOfRuns(front, low, high);
      MeaningOfList(Join(WriteAll(front), ','), Write(last), low, high);
    }
  }

  // ---- Everything, and every n -----------------------------------------------------------------------------------

  lemma Multiple(k: int, s: nat)
    requires k >= 1
    ensures k * s >= s
  {
    assert (k - 1) * s >= 0;
  }

  lemma {:induction false} Remainder(a: nat, s: nat, q: nat, r: nat)
    requires s > 0 && a == q * s + r && r < s
    ensures a % s == r
  {
    var p := a / s;
    assert a == p * s + a % s;
    assert (q - p) * s == q * s - p * s == a % s - r;
    assert (p - q) * s == r - a % s;
    if p < q {
      Multiple(q - p, s);
    } else if q < p {
      Multiple(p - q, s);
    }
  }

  lemma {:induction false} OneStepDown(a: nat, s: nat)
    requires s > 0
    ensures a % s == if a < s then a else (a - s) % s
  {
    if a < s {
      Remainder(a, s, 0, a);
    } else {
      var b := a - s;
      assert b == (b / s) * s + b % s;
      assert a == (b / s + 1) * s + b % s;
      Remainder(a, s, b / s + 1, b % s);
    }
  }

  lemma {:induction false} RangeIsSteps(low: nat, high: nat, step: nat)
    requires step > 0
    ensures Elements(Range(low, high, step)) == Steps(low, high, step)
    decreases high + 1 - low
  {
    if low <= high {
      RangeIsSteps(low + step, high, step);
      forall v: nat | low <= v <= high
        ensures OnStep(v, low, step) <==> v == low || OnStep(v, low + step, step)
      {
        OneStepDown(v - low, step);
      }
      assert Elements(Range(low, high, step)) == {low} + Elements(Range(low + step, high, step));
    }
  }

  lemma {:induction false} MeaningOfStar(low: nat, high: nat)
    ensures Meaning("*", low, high) == Steps(low, high, 1)
  {
    SplitNothing("*", '/');
    MeaningOfEntry("*", low, high);
  }

  lemma {:induction false} SplitEvery(n: nat)
    ensures Split("*/" + Decimal(n), '/') == ["*", Decimal(n)] && ',' !in "*/" + Decimal(n)
  {
    SplitNothing("*", '/');
    DigitsOnly(Decimal(n), '/');
    DigitsOnly(Decimal(n), ',');
    assert "*/" + Decimal(n) == "*" + ['/'] + Decimal(n);
    SplitAppend("*", Decimal(n), '/');
  }

  lemma {:induction false} MeaningOfEvery(n: nat, low: nat, high: nat)
    ensures Meaning("*/" + Decimal(n), low, high) == Steps(low, high, n)
  {
    SplitEvery(n);
    ValueOfDecimal(n);
    MeaningOfEntry("*/" + Decimal(n), low, high);
  }

  /** The round trip: what is written stands for exactly the values that were given. */
  lemma {:induction false} TextMeansTheValues(ordered: seq<nat>, low: nat, high: nat)
    requires Increasing(ordered) && ordered != []
    ensures Meaning(Field(ordered, low, high), low, high) == Elements(ordered)
  {
    if ordered == Range(low, high, 1) {
      RangeIsSteps(low, high, 1);
      MeaningOfStar(low, high);
    } else if |ordered| > 2 && ordered[0] == low && ordered[1] > low + 1 && ordered == Range(low, high, ordered[1] - low) {
      RangeIsSteps(low, high, ordered[1] - low);
      MeaningOfEvery(ordered[1] - low, low, high);
    } else {
      RunsCover(ordered);
      MeaningOfRuns(Runs(ordered), low, high);
    }
  }

  // ---- Accepted --------------------------------------------------------------------------------------------------

  /** The bounds the client writes a field with are within those the server reads it with. */
  predicate Covers(spec: FieldSpec, low: nat, high: nat) {
    spec.min <= low && high <= spec.max <= 99
  }

  lemma {:induction false} NotAName(names: seq<string>, text: string)
    requires text != "" && IsDigit(text[0])
    requires forall name <- names :: name != "" && !IsDigit(name[0])
    ensures IndexOf(names, text) == None
    decreases |names|
  {
    if names != [] {
      assert names[0] in names;
      assert forall name <- names[1..] :: name in names;
      NotAName(names[1..], text);
    }
  }

  /** Names are words. */
  predicate Sane(spec: FieldSpec) {
    forall name <- spec.names :: name != "" && !IsDigit(name[0])
  }

  lemma {:induction false} ParsesDecimal(n: nat, spec: FieldSpec)
    requires spec.min <= n <= spec.max <= 99 && Sane(spec)
    ensures ParseValue(Decimal(n), spec) == Some(n)
  {
    var text := Decimal(n);
    assert text[0] in text;
    assert Lower(text)[0] == text[0];
    NotAName(spec.names, Lower(text));
    ValueOfDecimal(n);
  }

  /** An entry that ends with a digit and has no `#` is neither a last day nor an nth one. */
  lemma PlainEntry(entry: string, spec: FieldSpec)
    requires entry != "" && IsDigit(entry[|entry| - 1]) && '#' !in entry
    ensures var parts := Split(entry, '/');
            IsValidEntry(entry, spec) <==>
            |parts| <= 2 && (|parts| == 2 ==> IsValidStep(parts[1])) && IsValidRange(parts[0], spec)
  {
    assert |entry| >= 2 ==> entry[|entry| - 2] in entry;
  }

  lemma LastDigit(text: string, n: nat)
    ensures text + Decimal(n) != "" && IsDigit((text + Decimal(n))[|text + Decimal(n)| - 1]) && '#' !in Decimal(n)
  {
    assert Decimal(n)[|Decimal(n)| - 1] in Decimal(n);
    DigitsOnly(Decimal(n), '#');
  }

  lemma OneEntry(entry: string, spec: FieldSpec)
    requires ',' !in entry && IsValidEntry(entry, spec)
    ensures AllValid(entry, spec)
  {
    SplitNothing(entry, ',');
  }

  lemma {:induction false} ValidNumber(n: nat, spec: FieldSpec)
    requires spec.min <= n <= spec.max <= 99 && Sane(spec)
    ensures AllValid(Decimal(n), spec)
  {
    LastDigit("", n);
    assert "" + Decimal(n) == Decimal(n);
    DigitsOnly(Decimal(n), ',');
    DigitsOnly(Decimal(n), '/');
    DigitsOnly(Decimal(n), '-');
    ParsesDecimal(n, spec);
    PlainEntry(Decimal(n), spec);
    OneEntry(Decimal(n), spec);
  }

  lemma {:induction false} ValidSpan(a: nat, b: nat, spec: FieldSpec)
    requires spec.min <= a <= b <= spec.max <= 99 && Sane(spec)
    ensures AllValid(Decimal(a) + "-" + Decimal(b), spec)
  {
    var text := Decimal(a) + "-" + Decimal(b);
    SplitSpan(a, b);
    ParsesDecimal(a, spec);
    ParsesDecimal(b, spec);
    LastDigit("", a);
    LastDigit(Decimal(a) + "-", b);
    PlainEntry(text, spec);
    OneEntry(text, spec);
  }

  lemma {:induction false} ValidEvery(n: nat, spec: FieldSpec)
    requires 1 <= n <= 99
    ensures AllValid("*/" + Decimal(n), spec)
  {
    SplitEvery(n);
    ValueOfDecimal(n);
    LastDigit("*/", n);
    PlainEntry("*/" + Decimal(n), spec);
    OneEntry("*/" + Decimal(n), spec);
  }

  lemma {:induction false} ValidRuns(runs: seq<(nat, nat)>, spec: FieldSpec)
    requires runs != [] && Sane(spec) && spec.max <= 99
    requires forall i :: 0 <= i < |runs| ==> spec.min <= runs[i].0 <= runs[i].1 <= spec.max
    ensures AllValid(Join(WriteAll(runs), ','), spec)
  {
    var front, last := runs[..|runs| - 1], runs[|runs| - 1];
    JoinNext(runs);
    if last.0 == last.1 {
      ValidNumber(last.0, spec);
    } else if last.1 >= last.0 + 2 {
      ValidSpan(last.0, last.1, spec);
    } else {
      ValidNumber(last.0, spec);
      ValidNumber(last.1, spec);
      ValidList(Decimal(last.0), Decimal(last.1), spec);
    }
    if front != [] {
      ValidRuns(front, spec);
      ValidList(Join(WriteAll(front), ','), Write(last), spec);
    }
  }

  lemma {:induction false} RunEndsAreValues(s: seq<nat>, i: nat)
    requires Increasing(s) && i < |Runs(s)|
    ensures Runs(s)[i].0 in s && Runs(s)[i].1 in s
  {
    var front := s[..|s| - 1];
    var runs := Runs(front);
    assert forall v <- front :: v in s;
    assert s[|s| - 1] in s;
    if i < |runs| {
      RunEndsAreValues(front, i);
    }
  }

  /** A field of the client, in the server's field of that name. */
  lemma {:induction false} TextIsAccepted(ordered: seq<nat>, low: nat, high: nat, spec: FieldSpec)
    requires Increasing(ordered) && ordered != [] && Elements(ordered) <= Between(low, high)
    requires Covers(spec, low, high) && Sane(spec)
    ensures IsValidField(Field(ordered, low, high), spec)
  {
    forall v <- ordered
      ensures Within(v, low, high)
    {
      assert v in Elements(ordered);
      assert v in Between(low, high);
    }
    if ordered == Range(low, high, 1) {
      SplitNothing("*", ',');
      SplitNothing("*", '/');
    } else if |ordered| > 2 && ordered[0] == low && ordered[1] > low + 1 && ordered == Range(low, high, ordered[1] - low) {
      assert ordered[1] in ordered;
      ValidEvery(ordered[1] - low, spec);
    } else {
      forall i | 0 <= i < |Runs(ordered)|
        ensures spec.min <= Runs(ordered)[i].0 <= Runs(ordered)[i].1 <= spec.max
      {
        RunsCover(ordered);
        RunEndsAreValues(ordered, i);
      }
      ValidRuns(Runs(ordered), spec);
      StartsLikeANumber(Runs(ordered));
    }
  }

  lemma {:induction false} StartsLikeANumber(runs: seq<(nat, nat)>)
    requires runs != []
    ensures Join(WriteAll(runs), ',') != "" && IsDigit(Join(WriteAll(runs), ',')[0])
  {
    JoinNext(runs);
    if |runs| > 1 {
      StartsLikeANumber(runs[..|runs| - 1]);
    } else {
      assert Decimal(runs[0].0)[0] in Decimal(runs[0].0);
    }
  }

  lemma TheSpecsAreSane()
    ensures Sane(MINUTE) && Sane(HOUR) && Sane(DAY_OF_MONTH) && Sane(MONTH) && Sane(DAY_OF_WEEK)
    ensures Covers(MINUTE, 0, 59) && Covers(HOUR, 0, 23) && Covers(DAY_OF_MONTH, 1, 31) && Covers(MONTH, 1, 12)
    ensures Covers(DAY_OF_WEEK, 0, 6)
  {
  }

  // ---- compact ---------------------------------------------------------------------------------------------------

  /** `sorted(set(values))`. */
  method Sorted(values: set<nat>) returns (ordered: seq<nat>)
    ensures Increasing(ordered) && Elements(ordered) == values
  {
    ordered := [];
    var rest := values;
    while rest != {}
      invariant rest <= values && Increasing(ordered) && Elements(ordered) == values - rest
      decreases |rest|
    {
      var v :| v in rest;
      var i := 0;
      while i < |ordered| && ordered[i] < v
        invariant 0 <= i <= |ordered| && forall j :: 0 <= j < i ==> ordered[j] < v
      {
        i := i + 1;
      }
      InsertInOrder(ordered, i, v);
      ordered := ordered[..i] + [v] + ordered[i..];
      rest := rest - {v};
    }
  }

  lemma InsertInOrder(s: seq<nat>, i: nat, v: nat)
    requires i <= |s| && Increasing(s) && v !in Elements(s)
    requires (forall j :: 0 <= j < i ==> s[j] < v) && (i < |s| ==> v <= s[i])
    ensures Increasing(s[..i] + [v] + s[i..]) && Elements(s[..i] + [v] + s[i..]) == Elements(s) + {v}
  {
    assert i < |s| ==> s[i] in Elements(s);
    assert s == s[..i] + s[i..];
  }

  method RunsOf(ordered: seq<nat>) returns (runs: seq<(nat, nat)>)
    ensures runs == Runs(ordered)
  {
    runs := [];
    for i := 0 to |ordered|
      invariant runs == Runs(ordered[..i])
    {
      var value := ordered[i];
      assert ordered[..i + 1][..i] == ordered[..i];
      if runs != [] && value == runs[|runs| - 1].1 + 1 {
        runs := runs[|runs| - 1 := (runs[|runs| - 1].0, value)];
      } else {
        runs := runs + [(value, value)];
      }
    }
    assert ordered[..|ordered|] == ordered;
  }

  method TextOf(ordered: seq<nat>, low: nat, high: nat) returns (field: Option<string>)
    requires Increasing(ordered)
    ensures field == Some(Field(ordered, low, high))
  {
    if ordered == Range(low, high, 1) {
      return Some("*");
    }
    if |ordered| > 2 && ordered[0] == low {
      var step := ordered[1] - ordered[0];
      if step > 1 && ordered == Range(low, high, step) {
        return Some("*/" + Decimal(step));
      }
    }
    var runs := RunsOf(ordered);
    return Some(Join(WriteAll(runs), ','));
  }

  ghost predicate IsTextOf(field: string, values: set<nat>, low: nat, high: nat) {
    exists ordered: seq<nat> :: Increasing(ordered) && Elements(ordered) == values && field == Field(ordered, low, high)
  }

  /** Every server field that covers the client's accepts it. */
  ghost predicate IsAccepted(field: string, low: nat, high: nat) {
    forall spec :: Covers(spec, low, high) && Sane(spec) ==> IsValidField(field, spec)
  }

  lemma TextIsRight(ordered: seq<nat>, values: set<nat>, low: nat, high: nat)
    requires Increasing(ordered) && Elements(ordered) == values && ordered != []
    ensures var field := Field(ordered, low, high);
            && IsTextOf(field, values, low, high) && Meaning(field, low, high) == values
            && (values <= Between(low, high) ==> IsAccepted(field, low, high))
  {
    TextMeansTheValues(ordered, low, high);
    if values <= Between(low, high) {
      forall spec | Covers(spec, low, high) && Sane(spec)
        ensures IsValidField(Field(ordered, low, high), spec)
      {
        TextIsAccepted(ordered, low, high, spec);
      }
    }
  }

  /** `compact`: `None` is the ValueError of a field that would be empty. */
  method Compact(values: set<nat>, low: nat, high: nat) returns (field: Option<string>)
    ensures field.None? <==> values == {}
    ensures field.Some? ==> IsTextOf(field.value, values, low, high) && Meaning(field.value, low, high) == values
    ensures field.Some? && values <= Between(low, high) ==> IsAccepted(field.value, low, high)
  {
    var ordered := Sorted(values);
    NoElements(ordered);
    if ordered == [] {
      return None;
    }
    TextIsRight(ordered, values, low, high);
    field := TextOf(ordered, low, high);
  }

  // ---- Sunday ----------------------------------------------------------------------------------------------------

  /**
   * The client's days of the week run from 0 to 6 and the server's to 7, which is Sunday again. Read there, a field
   * stands for the same days.
   */
  function Days(s: set<nat>): set<nat> {
    set v | v in s :: v % 7
  }

  lemma SameDays(s: set<nat>)
    requires s <= Between(0, 6)
    ensures Days(s) == s
  {
    assert forall v <- s :: v % 7 == v;
  }

  lemma EveryDay()
    ensures Days(Steps(0, 7, 1)) == Steps(0, 6, 1)
  {
    assert forall v: nat :: v in Steps(0, 7, 1) <==> v <= 7;
    forall d: nat | d <= 6
      ensures d in Days(Steps(0, 7, 1))
    {
      assert d in Steps(0, 7, 1) && d % 7 == d;
    }
  }

  lemma EveryFewDays(n: nat)
    requires 2 <= n <= 3
    ensures Steps(0, 7, n) == Steps(0, 6, n) <= Between(0, 6)
  {
    assert 7 % n == 1;
  }

  lemma {:induction false} SundayTwice(ordered: seq<nat>)
    requires Increasing(ordered) && ordered != [] && Elements(ordered) <= Between(0, 6)
    ensures Days(Meaning(Field(ordered, 0, 6), 0, 7)) == Elements(ordered)
  {
    SameDays(Elements(ordered));
    if ordered == Range(0, 6, 1) {
      RangeIsSteps(0, 6, 1);
      MeaningOfStar(0, 7);
      EveryDay();
    } else if |ordered| > 2 && ordered[0] == 0 && ordered[1] > 1 && ordered == Range(0, 6, ordered[1]) {
      var n := ordered[1];
      RangeIsSteps(0, 6, n);
      MeaningOfEvery(n, 0, 7);
      assert ordered == [0] + Range(n, 6, n) && Range(n, 6, n) == [n] + Range(2 * n, 6, n);
      EveryFewDays(n);
    } else {
      RunsCover(ordered);
      MeaningOfRuns(Runs(ordered), 0, 7);
    }
  }
}
