/** What the server's validator accepts as one field of a cron expression, and what a numeric field stands for. */
module CronFields {
  import opened Prelude
  import opened Text

  datatype FieldSpec = FieldSpec(
    min: nat,
    max: nat,
    names: seq<string>,
    allowQuestionMark: bool,
    allowLast: bool,
    allowNth: bool)

  const MONTH_NAMES := ["jan", "feb", "mar", "apr", "may", "jun", "jul", "aug", "sep", "oct", "nov", "dec"]
  const DAY_NAMES := ["sun", "mon", "tue", "wed", "thu", "fri", "sat"]

  const SECOND := FieldSpec(0, 59, [], false, false, false)
  const MINUTE := FieldSpec(0, 59, [], false, false, false)
  const HOUR := FieldSpec(0, 23, [], false, false, false)
  const DAY_OF_MONTH := FieldSpec(1, 31, [], true, true, false)
  const MONTH := FieldSpec(1, 12, MONTH_NAMES, false, false, false)
  const DAY_OF_WEEK := FieldSpec(0, 7, DAY_NAMES, true, true, true)

  function IndexOf(names: seq<string>, name: string): Option<nat>
    decreases |names|
  {
    if names == [] then None
    else if names[0] == name then Some(0)
    else
      var rest := IndexOf(names[1..], name);
      if rest.None? then None else Some(rest.value + 1)
  }

  /** `parseValue`. Months count from one, days of the week from zero. */
  function ParseValue(token: string, spec: FieldSpec): Option<nat> {
    var index := IndexOf(spec.names, Lower(token));
    if index.Some? then Some(if spec.names == MONTH_NAMES then index.value + 1 else index.value)
    else if !AllDigits(token) || !(1 <= |token| <= 2) then None
    else if spec.min <= Value(token) <= spec.max then Some(Value(token))
    else None
  }

  predicate IsValidRange(range: string, spec: FieldSpec) {
    var bounds := Split(range, '-');
    || range == "*"
    || (|bounds| == 1 && ParseValue(bounds[0], spec).Some?)
    || (|bounds| == 2 && ParseValue(bounds[0], spec).Some? && ParseValue(bounds[1], spec).Some?)
  }

  predicate IsValidStep(step: string) {
    AllDigits(step) && 1 <= |step| <= 3 && Value(step) >= 1
  }

  /** `MON#2` as `("MON", '2')`. */
  function Nth(entry: string): Option<string> {
    var n := |entry|;
    if n >= 3 && entry[n - 2] == '#' && '1' <= entry[n - 1] <= '5' then Some(entry[..n - 2]) else None
  }

  predicate IsValidEntry(entry: string, spec: FieldSpec) {
    var n := |entry|;
    if n == 0 then false
    else if n == 1 && entry[0] in {'l', 'L'} then spec.allowLast
    else if n > 1 && entry[n - 1] in {'l', 'L'} then spec.allowLast && ParseValue(entry[..n - 1], spec).Some?
    else if Nth(entry).Some? then spec.allowNth && ParseValue(Nth(entry).value, spec).Some?
    else
      var parts := Split(entry, '/');
      && |parts| <= 2
      && (|parts| == 2 ==> IsValidStep(parts[1]))
      && IsValidRange(parts[0], spec)
  }

  /** `isValidField`. */
  predicate IsValidField(field: string, spec: FieldSpec) {
    if field == "" then false
    else if field == "?" then spec.allowQuestionMark
    else forall entry <- Split(field, ',') :: IsValidEntry(entry, spec)
  }

  // ---- What a numeric field stands for ---------------------------------------------------------------------------

  function Number(s: string): nat {
    if AllDigits(s) then Value(s) else 0
  }

  predicate OnStep(v: nat, low: nat, step: nat) {
    step > 0 && low <= v && (v - low) % step == 0
  }

  /** Every `step`th value from `low` to `high`. */
  function Steps(low: nat, high: nat, step: nat): set<nat> {
    set v: nat | v <= high && OnStep(v, low, step)
  }

  /** `*`, `5`, `1-5`, each possibly followed by `/n`, in a field that runs from `low` to `high`. */
  function Entry(entry: string, low: nat, high: nat): set<nat> {
    var parts := Split(entry, '/');
    var bounds := Split(parts[0], '-');
    var step := if |parts| == 2 then Number(parts[1]) else 1;
    if parts[0] == "*" then Steps(low, high, step)
    else if |bounds| == 2 then Steps(Number(bounds[0]), Number(bounds[1]), step)
    else if |parts| == 2 then Steps(Number(bounds[0]), high, step)
    else {Number(bounds[0])}
  }

  function Entries(entries: seq<string>, low: nat, high: nat): set<nat> {
    if entries == [] then {} else Entries(entries[..|entries| - 1], low, high) + Entry(entries[|entries| - 1], low, high)
  }

  /** The values a field stands for. */
  function Meaning(field: string, low: nat, high: nat): set<nat> {
    Entries(Split(field, ','), low, high)
  }

  lemma {:induction false} EntriesAppend(a: seq<string>, b: seq<string>, low: nat, high: nat)
    ensures Entries(a + b, low, high) == Entries(a, low, high) + Entries(b, low, high)
  {
    if b == [] {
      assert a + b == a;
    } else {
      EntriesAppend(a, b[..|b| - 1], low, high);
      assert (a + b)[..|a + b| - 1] == a + b[..|b| - 1];
    }
  }

  /** A list stands for what its two parts stand for together. */
  lemma {:induction false} MeaningOfList(a: string, b: string, low: nat, high: nat)
    ensures Meaning(a + "," + b, low, high) == Meaning(a, low, high) + Meaning(b, low, high)
  {
    SplitAppend(a, b, ',');
    EntriesAppend(Split(a, ','), Split(b, ','), low, high);
  }

  lemma {:induction false} MeaningOfEntry(entry: string, low: nat, high: nat)
    requires ',' !in entry
    ensures Meaning(entry, low, high) == Entry(entry, low, high)
  {
    SplitNothing(entry, ',');
    var one := [entry];
    assert one[..|one| - 1] == [];
    assert Entries(one, low, high) == Entries([], low, high) + Entry(entry, low, high);
  }

  /** Every entry is acceptable. */
  ghost predicate AllValid(field: string, spec: FieldSpec) {
    forall entry <- Split(field, ',') :: IsValidEntry(entry, spec)
  }

  lemma ValidList(a: string, b: string, spec: FieldSpec)
    requires AllValid(a, spec) && AllValid(b, spec)
    ensures AllValid(a + "," + b, spec)
  {
    SplitAppend(a, b, ',');
    assert a + "," + b == a + [','] + b;
    forall entry <- Split(a + "," + b, ',')
      ensures IsValidEntry(entry, spec)
    {
      assert entry in Split(a, ',') || entry in Split(b, ',');
    }
  }
}
