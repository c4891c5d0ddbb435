/**
 * The language of the server's cron fields, written down as syntax trees and their text: what the validator accepts is
 * exactly what some tree is written as, and July by name is not.
 */
module CronGrammar {
  import opened Prelude
  import opened Text
  import opened CronFields

  /**
   * What can stand in a field: numbers from `low` to `high`, names for the values from `first` on, and the last and the
   * nth of a day where the field knows days.
   */
  datatype Dialect = Dialect(low: nat, high: nat, first: nat, names: seq<string>, knowsLast: bool, knowsNth: bool)

  predicate IsName(name: string) {
    |name| == 3 && forall c <- name :: 'a' <= c <= 'z'
  }

  ghost predicate Speaks(spec: FieldSpec, d: Dialect) {
    && spec == FieldSpec(d.low, d.high, d.names, d.knowsLast, d.knowsLast, d.knowsNth)
    && d.low <= d.high
    && (forall i :: 0 <= i < |d.names| ==> IsName(d.names[i]))
    && (forall i, j :: 0 <= i < j < |d.names| ==> d.names[i] != d.names[j])
    && d.first == if spec.names == MONTH_NAMES then 1 else 0
  }

  // ---- Values ------------------------------------------------------------------------------------------------------

  predicate IsNamed(token: string, d: Dialect, v: nat) {
    d.first <= v && v - d.first < |d.names| && Lower(token) == d.names[v - d.first]
  }

  predicate IsNumeral(token: string, d: Dialect, v: nat) {
    AllDigits(token) && 1 <= |token| <= 2 && v == Value(token) && d.low <= v <= d.high
  }

  /** The token is a value of the field: a name in any case, or one or two digits. */
  predicate Stands(token: string, d: Dialect, v: nat) {
    IsNamed(token, d, v) || IsNumeral(token, d, v)
  }

  ghost predicate IsValue(token: string, d: Dialect) {
    exists v: nat :: Stands(token, d, v)
  }

  predicate IsWordChar(c: char) {
    'a' <= c <= 'z' || 'A' <= c <= 'Z' || IsDigit(c)
  }

  predicate IsWord(s: string) {
    s != "" && forall c <- s :: IsWordChar(c)
  }

  lemma {:induction false} IndexIsFirst(names: seq<string>, name: string)
    ensures var index := IndexOf(names, name);
            if index.Some? then index.value < |names| && names[index.value] == name else name !in names
    decreases |names|
  {
    if names != [] {
      IndexIsFirst(names[1..], name);
      assert names == [names[0]] + names[1..];
    }
  }

  /** Names are told apart. */
  lemma NamedWhen(names: seq<string>, name: string, i: int)
    requires forall j, k :: 0 <= j < k < |names| ==> names[j] != names[k]
    ensures 0 <= i < |names| && names[i] == name <==> 0 <= i && IndexOf(names, name) == Some(i)
  {
    IndexIsFirst(names, name);
  }

  lemma LetterCase(token: string, name: string)
    requires Lower(token) == name && IsName(name)
    ensures |token| == 3 && IsWord(token) && !AllDigits(token)
  {
    forall i | 0 <= i < |token|
      ensures IsWordChar(token[i]) && !IsDigit(token[i])
    {
      assert Lower(token)[i] == name[i] && name[i] in name;
    }
    assert token[0] in token;
  }

  lemma NamesAreLetters(token: string, names: seq<string>)
    requires forall i :: 0 <= i < |names| ==> IsName(names[i])
    ensures IndexOf(names, Lower(token)).Some? ==> !AllDigits(token)
  {
    IndexIsFirst(names, Lower(token));
    var index := IndexOf(names, Lower(token));
    if index.Some? {
      LetterCase(token, names[index.value]);
    }
  }

  lemma NamedAreLetters(token: string, spec: FieldSpec, d: Dialect, v: nat)
    requires Speaks(spec, d) && IsNamed(token, d, v)
    ensures |token| == 3 && IsWord(token) && !AllDigits(token)
  {
    LetterCase(token, d.names[v - d.first]);
  }

  /** A token stands for one value at most, which is the one the validator finds. */
  lemma ParsesWhen(token: string, spec: FieldSpec, d: Dialect, v: nat)
    requires Speaks(spec, d)
    ensures ParseValue(token, spec) == Some(v) <==> Stands(token, d, v)
  {
    NamedWhen(d.names, Lower(token), v - d.first);
    NamesAreLetters(token, d.names);
  }

  lemma ValueWhen(token: string, spec: FieldSpec, d: Dialect)
    requires Speaks(spec, d)
    ensures ParseValue(token, spec).Some? <==> IsValue(token, d)
    ensures IsValue(token, d) ==> IsWord(token)
  {
    if ParseValue(token, spec).Some? {
      ParsesWhen(token, spec, d, ParseValue(token, spec).value);
    }
    if v: nat :| Stands(token, d, v) {
      ParsesWhen(token, spec, d, v);
      if IsNamed(token, d, v) {
        NamedAreLetters(token, spec, d, v);
      }
    }
  }

  // ---- Entries -----------------------------------------------------------------------------------------------------

  datatype Range = Star | One(token: string) | Span(first: string, last: string)

  /** One entry of a list. */
  datatype Form =
    | Ranged(range: Range, step: Option<string>)
    | LastDay(letter: char)
    | LastOf(token: string, letter: char)
    | NthOf(token: string, n: char)

  function ShowRange(r: Range): string {
    match r
    case Star => "*"
    case One(token) => token
    case Span(first, last) => first + ['-'] + last
  }

  function Show(form: Form): string {
    match form
    case Ranged(r, step) => if step.None? then ShowRange(r) else ShowRange(r) + ['/'] + step.value
    case LastDay(letter) => [letter]
    case LastOf(token, letter) => token + [letter]
    case NthOf(token, n) => token + ['#'] + [n]
  }

  predicate IsL(c: char) {
    c == 'l' || c == 'L'
  }

  predicate EndsInL(s: string) {
    s != "" && IsL(s[|s| - 1])
  }

  ghost predicate AdmitsRange(r: Range, d: Dialect) {
    match r
    case Star => true
    case One(token) => IsValue(token, d)
    case Span(first, last) => IsValue(first, d) && IsValue(last, d)
  }

  /** A step is one to three digits, and not zero. */
  predicate IsStep(step: string) {
    AllDigits(step) && 1 <= |step| <= 3 && Value(step) >= 1
  }

  /**
   * The entries of a field: anything, a value, or a span, each possibly every so many; the last day, the last of a day,
   * the nth of a day where the field knows them. Whatever ends in the letter L is read as one of these.
   */
  ghost predicate Admits(form: Form, d: Dialect) {
    match form
    case Ranged(r, step) => AdmitsRange(r, d) && (step.Some? ==> IsStep(step.value)) && !EndsInL(Show(form))
    case LastDay(letter) => d.knowsLast && IsL(letter)
    case LastOf(token, letter) => d.knowsLast && IsL(letter) && IsValue(token, d)
    case NthOf(token, n) => d.knowsNth && '1' <= n <= '5' && IsValue(token, d)
  }

  /** Letters, digits, stars, dashes and slashes: no comma, no hash, no question mark. */
  predicate IsRangeText(s: string) {
    s != "" && forall c <- s :: IsWordChar(c) || c in {'*', '-', '/'}
  }

  lemma WordsHaveNo(s: string, c: char)
    requires IsWord(s) && c in {'-', '/', ',', '#', '?'}
    ensures c !in s && Split(s, c) == [s]
  {
    SplitNothing(s, c);
  }

  lemma SpanText(first: string, last: string)
    requires IsWord(first) && IsWord(last)
    ensures var text := first + ['-'] + last;
            IsRangeText(text) && '/' !in text && text != "*" && Split(text, '-') == [first, last]
  {
    SplitAppend(first, last, '-');
    WordsHaveNo(first, '-');
    WordsHaveNo(last, '-');
    WordsHaveNo(first, '/');
    WordsHaveNo(last, '/');
    assert |first + ['-'] + last| > 1;
  }

  lemma RangeIsAccepted(r: Range, spec: FieldSpec, d: Dialect)
    requires Speaks(spec, d) && AdmitsRange(r, d)
    ensures IsRangeText(ShowRange(r)) && '/' !in ShowRange(r) && IsValidRange(ShowRange(r), spec)
  {
    match r
    case Star =>
    case One(token) =>
      ValueWhen(token, spec, d);
      WordsHaveNo(token, '-');
      WordsHaveNo(token, '/');
    case Span(first, last) =>
      ValueWhen(first, spec, d);
      ValueWhen(last, spec, d);
      SpanText(first, last);
  }

  lemma RangeRead(range: string, spec: FieldSpec, d: Dialect) returns (r: Range)
    requires Speaks(spec, d) && IsValidRange(range, spec)
    ensures AdmitsRange(r, d) && ShowRange(r) == range
  {
    var bounds := Split(range, '-');
    JoinOfSplit(range, '-');
    if range == "*" {
      r := Star;
    } else if |bounds| == 1 {
      r := One(bounds[0]);
      ValueWhen(bounds[0], spec, d);
    } else {
      r := Span(bounds[0], bounds[1]);
      assert bounds[..1] == [bounds[0]];
      ValueWhen(bounds[0], spec, d);
      ValueWhen(bounds[1], spec, d);
    }
  }

  /** A range and its step come apart at the slash. */
  lemma StepText(range: string, step: Option<string>)
    requires IsRangeText(range) && '/' !in range && (step.Some? ==> IsStep(step.value))
    ensures var text := if step.None? then range else range + ['/'] + step.value;
            IsRangeText(text) && Split(text, '/') == [range] + if step.None? then [] else [step.value]
  {
    SplitNothing(range, '/');
    if step.Some? {
      SplitAppend(range, step.value, '/');
      DigitsOnly(step.value, '/');
    }
  }

  lemma RangeTextHasNo(text: string)
    requires IsRangeText(text)
    ensures ',' !in text && text != "?" && Nth(text).None?
  {
    if |text| >= 3 {
      assert text[|text| - 2] in text;
    }
    assert text[0] in text;
  }

  lemma RangedIsAccepted(form: Form, spec: FieldSpec, d: Dialect)
    requires Speaks(spec, d) && form.Ranged? && Admits(form, d)
    ensures Show(form) != "" && Show(form) != "?" && ',' !in Show(form) && IsValidEntry(Show(form), spec)
  {
    RangeIsAccepted(form.range, spec, d);
    StepText(ShowRange(form.range), form.step);
    RangeTextHasNo(Show(form));
  }

  lemma LastOfIsAccepted(token: string, letter: char, spec: FieldSpec, d: Dialect)
    requires Speaks(spec, d) && d.knowsLast && IsL(letter) && IsValue(token, d)
    ensures ',' !in token + [letter] && IsValidEntry(token + [letter], spec)
  {
    ValueWhen(token, spec, d);
    WordsHaveNo(token, ',');
    assert (token + [letter])[..|token|] == token;
  }

  lemma NthOfIsAccepted(token: string, n: char, spec: FieldSpec, d: Dialect)
    requires Speaks(spec, d) && d.knowsNth && '1' <= n <= '5' && IsValue(token, d)
    ensures ',' !in token + ['#'] + [n] && IsValidEntry(token + ['#'] + [n], spec)
  {
    ValueWhen(token, spec, d);
    WordsHaveNo(token, ',');
    var text := token + ['#'] + [n];
    assert text[..|token|] == token && text[|token|] == '#' && text[|token| + 1] == n;
    assert Nth(text) == Some(token);
  }

  lemma MarkedIsAccepted(form: Form, spec: FieldSpec, d: Dialect)
    requires Speaks(spec, d) && !form.Ranged? && Admits(form, d)
    ensures Show(form) != "" && Show(form) != "?" && ',' !in Show(form) && IsValidEntry(Show(form), spec)
  {
    match form
    case LastDay(_) =>
    case LastOf(token, letter) =>
      LastOfIsAccepted(token, letter, spec, d);
      assert (token + [letter])[|token|] == letter;
    case NthOf(token, n) =>
      NthOfIsAccepted(token, n, spec, d);
      assert |token + ['#'] + [n]| >= 2;
  }

  lemma LastRead(entry: string, spec: FieldSpec, d: Dialect) returns (form: Form)
    requires Speaks(spec, d) && IsValidEntry(entry, spec) && EndsInL(entry)
    ensures Admits(form, d) && Show(form) == entry
  {
    var n := |entry|;
    if n == 1 {
      form := LastDay(entry[0]);
    } else {
      form := LastOf(entry[..n - 1], entry[n - 1]);
      ValueWhen(entry[..n - 1], spec, d);
    }
  }

  lemma NthRead(entry: string, spec: FieldSpec, d: Dialect) returns (form: Form)
    requires Speaks(spec, d) && IsValidEntry(entry, spec) && !EndsInL(entry) && Nth(entry).Some?
    ensures Admits(form, d) && Show(form) == entry
  {
    var n := |entry|;
    form := NthOf(entry[..n - 2], entry[n - 1]);
    ValueWhen(entry[..n - 2], spec, d);
    assert entry == entry[..n - 2] + ['#'] + [entry[n - 1]];
  }

  lemma EntryRead(entry: string, spec: FieldSpec, d: Dialect) returns (form: Form)
    requires Speaks(spec, d) && IsValidEntry(entry, spec)
    ensures Admits(form, d) && Show(form) == entry
  {
    if EndsInL(entry) {
      form := LastRead(entry, spec, d);
    } else if Nth(entry).Some? {
      form := NthRead(entry, spec, d);
    } else {
      form := RangedRead(entry, spec, d);
    }
  }

  lemma RangedRead(entry: string, spec: FieldSpec, d: Dialect) returns (form: Form)
    requires Speaks(spec, d) && IsValidEntry(entry, spec) && !EndsInL(entry) && Nth(entry).None?
    ensures Admits(form, d) && Show(form) == entry
  {
    var parts := Split(entry, '/');
    JoinOfSplit(entry, '/');
    var r := RangeRead(parts[0], spec, d);
    assert |parts| == 2 ==> parts[..1] == [parts[0]];
    form := Ranged(r, if |parts| == 2 then Some(parts[1]) else None);
  }

  // ---- Fields ------------------------------------------------------------------------------------------------------

  function ShowAll(forms: seq<Form>): seq<string> {
    seq(|forms|, i requires 0 <= i < |forms| => Show(forms[i]))
  }

  ghost predicate IsListOf(text: string, forms: seq<Form>, d: Dialect) {
    forms != [] && (forall form <- forms :: Admits(form, d)) && text == Join(ShowAll(forms), ',')
  }

  /** `?` where the field knows days, or a list of entries. */
  ghost predicate IsField(text: string, d: Dialect) {
    (text == "?" && d.knowsLast) || exists forms: seq<Form> :: IsListOf(text, forms, d)
  }

  lemma ListIsAccepted(text: string, forms: seq<Form>, spec: FieldSpec, d: Dialect)
    requires Speaks(spec, d) && IsListOf(text, forms, d)
    ensures IsValidField(text, spec)
  {
    var parts := ShowAll(forms);
    forall p <- parts
      ensures p != "" && p != "?" && ',' !in p && IsValidEntry(p, spec)
    {
      var i :| 0 <= i < |parts| && parts[i] == p;
      if forms[i].Ranged? {
        RangedIsAccepted(forms[i], spec, d);
      } else {
        MarkedIsAccepted(forms[i], spec, d);
      }
    }
    SplitOfJoin(parts, ',');
    assert parts[0] in parts;
    SplitNothing("", ',');
    SplitNothing("?", ',');
  }

  lemma {:induction false} EntriesRead(entries: seq<string>, spec: FieldSpec, d: Dialect) returns (forms: seq<Form>)
    requires Speaks(spec, d) && forall entry <- entries :: IsValidEntry(entry, spec)
    ensures ShowAll(forms) == entries && forall form <- forms :: Admits(form, d)
  {
    forms := [];
    if entries != [] {
      var n := |entries| - 1;
      assert entries[n] in entries;
      var front := EntriesRead(entries[..n], spec, d);
      var last := EntryRead(entries[n], spec, d);
      forms := front + [last];
      assert ShowAll(forms) == ShowAll(front) + [Show(last)];
      assert entries == entries[..n] + [entries[n]];
    }
  }

  lemma AcceptsItsLanguage(text: string, spec: FieldSpec, d: Dialect)
    requires Speaks(spec, d)
    ensures IsValidField(text, spec) <==> IsField(text, d)
  {
    if IsValidField(text, spec) && text != "?" {
      var forms := EntriesRead(Split(text, ','), spec, d);
      JoinOfSplit(text, ',');
      assert IsListOf(text, forms, d);
    }
    if forms: seq<Form> :| IsListOf(text, forms, d) {
      ListIsAccepted(text, forms, spec, d);
    }
  }

  // ---- The six fields ----------------------------------------------------------------------------------------------

  /** Seconds, minutes and hours, days and months from 1 on, days of the week with Sunday twice. */
  lemma ServerFields()
    ensures Speaks(SECOND, Dialect(0, 59, 0, [], false, false))
    ensures Speaks(MINUTE, Dialect(0, 59, 0, [], false, false))
    ensures Speaks(HOUR, Dialect(0, 23, 0, [], false, false))
    ensures Speaks(DAY_OF_MONTH, Dialect(1, 31, 0, [], true, false))
  {
    assert |MONTH_NAMES| == 12;
  }

  lemma MonthField()
    ensures Speaks(MONTH, Dialect(1, 12, 1, ["jan", "feb", "mar", "apr", "may", "jun", "jul", "aug", "sep", "oct", "nov", "dec"],
                                  false, false))
  {
  }

  lemma DayOfWeekField()
    ensures Speaks(DAY_OF_WEEK, Dialect(0, 7, 0, ["sun", "mon", "tue", "wed", "thu", "fri", "sat"], true, true))
  {
    assert |MONTH_NAMES| == 12;
  }

  /** Each of the server's fields accepts exactly its language. */
  lemma AcceptedWhen(text: string)
    ensures IsValidField(text, SECOND) <==> IsField(text, Dialect(0, 59, 0, [], false, false))
    ensures IsValidField(text, MINUTE) <==> IsField(text, Dialect(0, 59, 0, [], false, false))
    ensures IsValidField(text, HOUR) <==> IsField(text, Dialect(0, 23, 0, [], false, false))
    ensures IsValidField(text, DAY_OF_MONTH) <==> IsField(text, Dialect(1, 31, 0, [], true, false))
    ensures IsValidField(text, MONTH) <==>
            IsField(text, Dialect(1, 12, 1, ["jan", "feb", "mar", "apr", "may", "jun", "jul", "aug", "sep", "oct", "nov", "dec"],
                                  false, false))
    ensures IsValidField(text, DAY_OF_WEEK) <==>
            IsField(text, Dialect(0, 7, 0, ["sun", "mon", "tue", "wed", "thu", "fri", "sat"], true, true))
  {
    ServerFields();
    MonthField();
    DayOfWeekField();
    AcceptsItsLanguage(text, SECOND, Dialect(0, 59, 0, [], false, false));
    AcceptsItsLanguage(text, HOUR, Dialect(0, 23, 0, [], false, false));
    AcceptsItsLanguage(text, DAY_OF_MONTH, Dialect(1, 31, 0, [], true, false));
    AcceptsItsLanguage(text, MONTH, Dialect(1, 12, 1, MONTH_NAMES, false, false));
    AcceptsItsLanguage(text, DAY_OF_WEEK, Dialect(0, 7, 0, DAY_NAMES, true, true));
  }

  // ---- Names -------------------------------------------------------------------------------------------------------

  /** Names are in the dialect, and one by itself is accepted exactly if it does not end in an L. */
  lemma NameIsAcceptedWhen(token: string, spec: FieldSpec, d: Dialect, v: nat)
    requires Speaks(spec, d) && IsNamed(token, d, v)
    ensures IsValidField(token, spec) <==> !EndsInL(token)
  {
    NamedAreLetters(token, spec, d, v);
    ParsesWhen(token, spec, d, v);
    WordsHaveNo(token, ',');
    WordsHaveNo(token, '/');
    WordsHaveNo(token, '-');
    WordsHaveNo(token, '#');
    assert token[1] in token && token != "?";
    if EndsInL(token) {
      NameStartsWithALetter(token, d.names[v - d.first]);
      TwoLettersAreNoValue(token[..2], spec, d);
      assert token[..|token| - 1] == token[..2] && Split(token, ',') == [token];
      assert token in Split(token, ',') && !IsValidEntry(token, spec);
    }
  }

  lemma TwoLettersAreNoValue(two: string, spec: FieldSpec, d: Dialect)
    requires Speaks(spec, d) && |two| == 2 && !IsDigit(two[0])
    ensures ParseValue(two, spec).None?
  {
    IndexIsFirst(d.names, Lower(two));
    forall j | 0 <= j < |d.names|
      ensures d.names[j] != Lower(two)
    {
      assert IsName(d.names[j]) && |Lower(two)| == 2;
    }
    assert two[0] in two;
  }

  lemma NameStartsWithALetter(token: string, name: string)
    requires Lower(token) == name && IsName(name)
    ensures |token| == 3 && !IsDigit(token[0])
  {
    assert Lower(token)[0] in name;
  }

  /** That is every month name but one, in any case: July is refused, though its number is not. */
  lemma JulyIsRefused(token: string, v: nat)
    requires IsNamed(token, Dialect(1, 12, 1, MONTH_NAMES, false, false), v)
    ensures IsValidField(token, MONTH) <==> Lower(token) != "jul"
    ensures Lower(token) == "jul" ==> v == 7 && IsValidField("7", MONTH)
  {
    MonthField();
    NameIsAcceptedWhen(token, MONTH, Dialect(1, 12, 1, MONTH_NAMES, false, false), v);
    NamedAreLetters(token, MONTH, Dialect(1, 12, 1, MONTH_NAMES, false, false), v);
    assert Lower(token)[2] == MONTH_NAMES[v - 1][2];
    assert EndsInL(token) <==> Lower(token)[2] == 'l';
    assert MONTH_NAMES[v - 1][2] == 'l' <==> v == 7;
    SevenIsAccepted();
  }

  lemma SevenIsAccepted()
    ensures IsValidField("7", MONTH)
  {
    MonthField();
    var d := Dialect(1, 12, 1, MONTH_NAMES, false, false);
    assert IsNumeral("7", d, 7) by {
      assert "7"[..0] == "";
      assert Value("7") == 10 * Value("7"[..0]) + 7;
    }
    assert Stands("7", d, 7);
    var forms := [Ranged(One("7"), None)];
    assert ShowAll(forms) == ["7"];
    assert IsListOf("7", forms, d);
    AcceptsItsLanguage("7", MONTH, d);
  }
}
