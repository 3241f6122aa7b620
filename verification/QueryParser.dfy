/** The query language of the search field: lexing, operators, the look-ahead of
    relative dates, and why joining two queries joins their plans. */
module QueryParser {
  import opened Text

  datatype Field = Path | Filename | Filetype | Created | Modified | Tag | Type | Status

  datatype Filter = Filter(field: Field, value: string, negated: bool)
  datatype Term = Term(value: string, phrase: bool, negated: bool)
  datatype Regex = Regex(pattern: string, negated: bool)

  datatype Plan = Plan(filters: seq<Filter>, terms: seq<Term>, regexes: seq<Regex>)

  datatype ParseError =
    | NegationWithoutTerm
    | EmptyPhrase
    | UnterminatedPhrase
    | EmptyRegex
    | UnterminatedRegex
    | InvalidRegex(pattern: string)
    | OperatorRequiresValue(name: string)
    | InvalidDate(value: string)
    | UnknownOperator(name: string)
    | ExpectedTerm

  datatype Result<+T> = Ok(value: T) | Err(error: ParseError)

  /** Letter case and classes, which regular expressions compile, and which texts
      are calendar dates. */
  datatype Lexicon = Lexicon(lower: char -> char, isLetter: char -> bool, isNumber: char -> bool,
                             isPattern: string -> bool, isDate: string -> bool)

  function Lowered(s: string, lower: char -> char): (r: string)
    ensures |r| == |s| && forall i :: 0 <= i < |s| ==> r[i] == lower(s[i])
  {
    seq(|s|, i requires 0 <= i < |s| => lower(s[i]))
  }

  predicate NotWhite(c: char) {
    !IsWhite(c)
  }

  // ------------------------------------------------------------------- lexing

  /** The text up to the next white space. */
  function Word(s: string): string {
    s[..Lead(s, NotWhite)]
  }

  function SkipSpace(s: string): string {
    s[Lead(s, IsWhite)..]
  }

  /** A delimited text: its content and the units used, the closing one included. */
  datatype Span = Closed(content: string, used: nat) | Empty | Unclosed

  /** Up to the first `close` that is not escaped. A backslash takes the next
      character as it is; `keep` also keeps the backslash. */
  function Delimited(s: string, close: char, keep: bool, escaped: bool, value: string): Span {
    if |s| == 0 then Unclosed
    else if escaped then
      OneMore(Delimited(s[1..], close, keep, false, value + (if keep then "\\" else "") + [s[0]]))
    else if s[0] == '\\' then OneMore(Delimited(s[1..], close, keep, true, value))
    else if s[0] == close then (if |value| == 0 then Empty else Closed(value, 1))
    else OneMore(Delimited(s[1..], close, keep, false, value + [s[0]]))
  }

  function OneMore(r: Span): Span {
    if r.Closed? then Closed(r.content, r.used + 1) else r
  }

  lemma {:induction false} DelimitedUses(s: string, close: char, keep: bool, escaped: bool, value: string)
    ensures var r := Delimited(s, close, keep, escaped, value); r.Closed? ==> r.used <= |s| && |r.content| > 0
  {
    if |s| > 0 {
      var k := if keep then "\\" else "";
      DelimitedUses(s[1..], close, keep, false, value + k + [s[0]]);
      DelimitedUses(s[1..], close, keep, true, value);
      DelimitedUses(s[1..], close, keep, false, value + [s[0]]);
    }
  }

  /** What stands after the closing delimiter does not matter. */
  lemma {:induction false} DelimitedExtends(s: string, x: string, close: char, keep: bool, escaped: bool, value: string)
    requires Delimited(s, close, keep, escaped, value) != Unclosed
    ensures Delimited(s + x, close, keep, escaped, value) == Delimited(s, close, keep, escaped, value)
  {
    TailOfConcat(s, x);
    if escaped {
      DelimitedExtends(s[1..], x, close, keep, false, value + (if keep then "\\" else "") + [s[0]]);
    } else if s[0] == '\\' {
      DelimitedExtends(s[1..], x, close, keep, true, value);
    } else if s[0] != close {
      DelimitedExtends(s[1..], x, close, keep, false, value + [s[0]]);
    }
  }

  // ---------------------------------------------------------------- operators

  function FieldNamed(name: string): Option<Field> {
    if name == "path" then Some(Path)
    else if name == "filename" then Some(Filename)
    else if name == "filetype" then Some(Filetype)
    else if name == "created" then Some(Created)
    else if name == "modified" then Some(Modified)
    else if name == "tag" then Some(Tag)
    else if name == "type" then Some(Type)
    else if name == "status" then Some(Status)
    else None
  }

  predicate IsIdentifier(lex: Lexicon, s: string) {
    && |s| > 0 && lex.isLetter(s[0])
    && forall i :: 1 <= i < |s| ==> lex.isLetter(s[i]) || lex.isNumber(s[i]) || s[i] == '_' || s[i] == '-'
  }

  /** `field:value`, plain text, or an error. */
  function Operator(lex: Lexicon, token: string): Result<Option<(Field, string)>> {
    var colon := Lead(token, NotColon);
    if colon == |token| then Ok(None)
    else
      var name, value := token[..colon], token[colon + 1..];
      if |value| == 0 then Err(OperatorRequiresValue(name + ":"))
      else
        var field := FieldNamed(Lowered(name, lex.lower));
        if field.Some? then Ok(Some((field.value, value)))
        else if IsIdentifier(lex, name) then Err(UnknownOperator(name + ":"))
        else Ok(None)
  }

  predicate IsDateField(field: Field) {
    field == Created || field == Modified
  }

  predicate IsDateUnit(s: string) {
    s == "day" || s == "week" || s == "month" || s == "year"
  }

  predicate IsRelative(s: string) {
    s == "last day" || s == "last week" || s == "last month" || s == "last year"
  }

  /** `components(separatedBy: "..")`. */
  function SplitDots(s: string): (parts: seq<string>)
    ensures |parts| >= 1
  {
    if |s| == 0 then [""]
    else if |s| >= 2 && s[0] == '.' && s[1] == '.' then [""] + SplitDots(s[2..])
    else
      var rest := SplitDots(s[1..]);
      [[s[0]] + rest[0]] + rest[1..]
  }

  predicate IsDateExpression(lex: Lexicon, s: string) {
    var e := Trim(s, IsBlank);
    IsRelative(Lowered(e, lex.lower))
    || (var parts := SplitDots(e);
        |parts| <= 2 && forall i :: 0 <= i < |parts| ==>
          |Trim(parts[i], IsBlank)| > 0 && lex.isDate(Trim(parts[i], IsBlank)))
  }

  predicate IsDateValue(lex: Lexicon, value: string) {
    var expressions := Split(value, ',');
    forall i :: 0 <= i < |expressions| ==> IsDateExpression(lex, expressions[i])
  }

  predicate IsLast(lex: Lexicon, value: string) {
    Lowered(value, lex.lower) == "last"
  }

  /** No calendar reads the word `last` as a date. */
  ghost predicate LastIsNoDate(lex: Lexicon) {
    forall v :: IsLast(lex, v) ==> !IsDateValue(lex, v)
  }

  // -------------------------------------------------------------------- parsing

  /** One entry of a query. */
  datatype Item = OfFilter(filter: Filter) | OfTerm(term: Term) | OfRegex(regex: Regex)

  datatype Parsed = Parsed(item: Item, used: nat)

  function QuotedItem(s: string, negated: bool): Result<Parsed>
    requires |s| > 0
  {
    match Delimited(s[1..], '\"', false, false, "")
    case Closed(content, used) => Ok(Parsed(OfTerm(Term(content, true, negated)), used + 1))
    case Empty => Err(EmptyPhrase)
    case Unclosed => Err(UnterminatedPhrase)
  }

  function RegexItem(lex: Lexicon, s: string, negated: bool): Result<Parsed>
    requires |s| > 0
  {
    match Delimited(s[1..], '/', true, false, "")
    case Closed(content, used) =>
      if lex.isPattern(content) then Ok(Parsed(OfRegex(Regex(content, negated)), used + 1))
      else Err(InvalidRegex(content))
    case Empty => Err(EmptyRegex)
    case Unclosed => Err(UnterminatedRegex)
  }

  /** The unit after `last`: the units up to and with it, and its lower-case form. */
  function UnitAfter(lex: Lexicon, rest: string): (nat, string) {
    var blanks := Lead(rest, IsWhite);
    var unit := Word(rest[blanks..]);
    (blanks + |unit|, Lowered(unit, lex.lower))
  }

  /** The value of a date filter: `last` takes the unit that follows. */
  function DateValue(lex: Lexicon, value: string, rest: string): (string, nat) {
    if IsLast(lex, value) then
      var (used, unit) := UnitAfter(lex, rest);
      if IsDateUnit(unit) then (value + " " + unit, used) else (value, 0)
    else (value, 0)
  }

  function FilterItem(lex: Lexicon, field: Field, value: string, rest: string, negated: bool): Result<Parsed> {
    if IsDateField(field) then
      var (v, extra) := DateValue(lex, value, rest);
      if IsDateValue(lex, v) then Ok(Parsed(OfFilter(Filter(field, v, negated)), extra)) else Err(InvalidDate(v))
    else Ok(Parsed(OfFilter(Filter(field, value, negated)), 0))
  }

  function BareItem(lex: Lexicon, s: string, negated: bool): Result<Parsed> {
    var word := Word(s);
    if |word| == 0 then Err(ExpectedTerm)
    else
      match Operator(lex, word)
      case Err(e) => Err(e)
      case Ok(None) => Ok(Parsed(OfTerm(Term(word, false, negated)), |word|))
      case Ok(Some((field, value))) => Later(FilterItem(lex, field, value, s[|word|..], negated), |word|)
  }

  function Later(r: Result<Parsed>, n: nat): Result<Parsed> {
    if r.Ok? then Ok(r.value.(used := r.value.used + n)) else r
  }

  function PlainItem(lex: Lexicon, s: string, negated: bool): Result<Parsed>
    requires |s| > 0
  {
    if s[0] == '\"' then QuotedItem(s, negated)
    else if s[0] == '/' then RegexItem(lex, s, negated)
    else BareItem(lex, s, negated)
  }

  function ItemAt(lex: Lexicon, s: string): Result<Parsed>
    requires |s| > 0
  {
    if s[0] == '-' then
      if |s| == 1 || IsWhite(s[1]) then Err(NegationWithoutTerm) else Later(PlainItem(lex, s[1..], true), 1)
    else PlainItem(lex, s, false)
  }

  lemma {:induction false} PlainUses(lex: Lexicon, s: string, negated: bool)
    requires |s| > 0
    ensures var r := PlainItem(lex, s, negated); r.Ok? ==> 0 < r.value.used <= |s|
  {
    DelimitedUses(s[1..], '\"', false, false, "");
    DelimitedUses(s[1..], '/', true, false, "");
  }

  lemma {:induction false} ItemUses(lex: Lexicon, s: string)
    requires |s| > 0
    ensures var r := ItemAt(lex, s); r.Ok? ==> 0 < r.value.used <= |s|
  {
    PlainUses(lex, s, false);
    if |s| > 1 {
      PlainUses(lex, s[1..], true);
    }
  }

  function PlanOf(item: Item): Plan {
    match item
    case OfFilter(f) => Plan([f], [], [])
    case OfTerm(t) => Plan([], [t], [])
    case OfRegex(r) => Plan([], [], [r])
  }

  /** Both plans, entry lists in order. */
  function Both(p: Plan, q: Plan): Plan {
    Plan(p.filters + q.filters, p.terms + q.terms, p.regexes + q.regexes)
  }

  function Then(p: Plan, q: Result<Plan>): Result<Plan> {
    if q.Ok? then Ok(Both(p, q.value)) else q
  }

  const EMPTY := Plan([], [], [])

  lemma {:induction false} BothAssociates(p: Plan, q: Plan, r: Result<Plan>)
    ensures Then(Both(p, q), r) == Then(p, Then(q, r))
  {
    if r.Ok? {
      Assoc(p.filters, q.filters, r.value.filters);
      Assoc(p.terms, q.terms, r.value.terms);
      Assoc(p.regexes, q.regexes, r.value.regexes);
    }
  }

  lemma {:induction false} BothEmpty(p: Plan, r: Result<Plan>)
    ensures Both(p, EMPTY) == p && Both(EMPTY, p) == p && Then(EMPTY, r) == r
  {
    assert p.filters + [] == p.filters && p.terms + [] == p.terms && p.regexes + [] == p.regexes;
    assert [] + p.filters == p.filters && [] + p.terms == p.terms && [] + p.regexes == p.regexes;
    if r.Ok? {
      assert [] + r.value.filters == r.value.filters;
      assert [] + r.value.terms == r.value.terms && [] + r.value.regexes == r.value.regexes;
    }
  }

  /** The plan of the rest of a query. */
  function Parse(lex: Lexicon, input: string): Result<Plan>
    decreases |input|
  {
    var s := SkipSpace(input);
    if |s| == 0 then Ok(EMPTY)
    else
      ItemUses(lex, s);
      match ItemAt(lex, s)
      case Err(e) => Err(e)
      case Ok(Parsed(item, used)) =>
        if used < |s| && !IsWhite(s[used]) then Err(ExpectedTerm)
        else Then(PlanOf(item), Parse(lex, s[used..]))
  }

  // ---------------------------------------------------------- joining queries

  lemma {:induction false} LeadInside(s: string, x: string, p: char -> bool)
    requires Lead(s, p) < |s|
    ensures Lead(s + x, p) == Lead(s, p)
  {
    LeadRun(s, p);
    var n := Lead(s, p);
    assert (s + x)[..n] == s[..n] && (s + x)[n] == s[n];
    LeadUnique(s + x, p, n);
  }

  lemma {:induction false} LeadStops(s: string, x: string, p: char -> bool)
    requires x == "" || !p(x[0])
    ensures Lead(s + x, p) == Lead(s, p)
  {
    if Lead(s, p) < |s| {
      LeadInside(s, x, p);
    } else {
      LeadRun(s, p);
      assert s[..|s|] == s && (s + x)[..|s|] == s;
      LeadUnique(s + x, p, |s|);
    }
  }

  /** Text that starts with white space does not lengthen a word. */
  lemma {:induction false} WordStops(s: string, x: string)
    requires x == "" || IsWhite(x[0])
    ensures Word(s + x) == Word(s) && (s + x)[|Word(s)|..] == s[|Word(s)|..] + x
  {
    LeadStops(s, x, NotWhite);
  }

  /** A unit that is there stays the unit. */
  lemma {:induction false} UnitExtends(lex: Lexicon, rest: string, x: string)
    requires x == "" || IsWhite(x[0])
    requires IsDateUnit(UnitAfter(lex, rest).1)
    ensures UnitAfter(lex, rest + x) == UnitAfter(lex, rest)
  {
    var n := Lead(rest, IsWhite);
    assert |UnitAfter(lex, rest).1| == |Word(rest[n..])|;
    LeadInside(rest, x, IsWhite);
    WordStops(rest[n..], x);
    assert (rest + x)[n..] == rest[n..] + x;
  }

  lemma {:induction false} FilterExtends(lex: Lexicon, field: Field, value: string, rest: string, negated: bool,
                                         x: string)
    requires LastIsNoDate(lex) && (x == "" || IsWhite(x[0]))
    requires FilterItem(lex, field, value, rest, negated).Ok?
    ensures FilterItem(lex, field, value, rest + x, negated) == FilterItem(lex, field, value, rest, negated)
  {
    if IsDateField(field) && IsLast(lex, value) {
      assert !IsDateValue(lex, value);
      assert IsDateUnit(UnitAfter(lex, rest).1);
      UnitExtends(lex, rest, x);
    }
  }

  lemma {:induction false} BareExtends(lex: Lexicon, s: string, negated: bool, x: string)
    requires LastIsNoDate(lex) && (x == "" || IsWhite(x[0]))
    requires BareItem(lex, s, negated).Ok?
    ensures BareItem(lex, s + x, negated) == BareItem(lex, s, negated)
  {
    var word := Word(s);
    WordStops(s, x);
    var op := Operator(lex, word);
    if op.value.Some? {
      FilterExtends(lex, op.value.value.0, op.value.value.1, s[|word|..], negated, x);
    }
  }

  lemma {:induction false} PlainExtends(lex: Lexicon, s: string, negated: bool, x: string)
    requires LastIsNoDate(lex) && (x == "" || IsWhite(x[0])) && |s| > 0
    requires PlainItem(lex, s, negated).Ok?
    ensures PlainItem(lex, s + x, negated) == PlainItem(lex, s, negated)
  {
    TailOfConcat(s, x);
    if s[0] == '\"' {
      DelimitedExtends(s[1..], x, '\"', false, false, "");
    } else if s[0] == '/' {
      DelimitedExtends(s[1..], x, '/', true, false, "");
    } else {
      BareExtends(lex, s, negated, x);
    }
  }

  /** An entry that was read is read the same way when more text follows. */
  lemma {:induction false} ItemExtends(lex: Lexicon, s: string, x: string)
    requires LastIsNoDate(lex) && (x == "" || IsWhite(x[0])) && |s| > 0
    requires ItemAt(lex, s).Ok?
    ensures ItemAt(lex, s + x) == ItemAt(lex, s)
  {
    TailOfConcat(s, x);
    if s[0] == '-' {
      assert (s + x)[1] == s[1];
      PlainExtends(lex, s[1..], true, x);
    } else {
      PlainExtends(lex, s, false, x);
    }
  }

  lemma {:induction false} SkipConcat(a: string, x: string)
    ensures if SkipSpace(a) == "" then SkipSpace(a + x) == SkipSpace(x) else SkipSpace(a + x) == SkipSpace(a) + x
  {
    var n := Lead(a, IsWhite);
    LeadRun(a, IsWhite);
    if n < |a| {
      LeadInside(a, x, IsWhite);
    } else {
      LeadRun(x, IsWhite);
      var m := Lead(x, IsWhite);
      assert a[..n] == a && (a + x)[..n + m] == a + x[..m];
      assert Only(a + x[..m], IsWhite);
      LeadUnique(a + x, IsWhite, n + m);
      assert (a + x)[n + m..] == x[m..];
    }
  }

  lemma {:induction false} SkipOne(c: char, b: string)
    requires IsWhite(c)
    ensures SkipSpace([c] + b) == SkipSpace(b)
  {
    SkipConcat([c], b);
    assert [c][1..] == "";
  }

  /** Text behind a query that parses is met when the first entry is read. */
  lemma {:induction false} StepBefore(lex: Lexicon, a: string, s: string, p: Parsed, x: string)
    requires LastIsNoDate(lex) && x != "" && IsWhite(x[0])
    requires s == SkipSpace(a) && |s| > 0 && ItemAt(lex, s) == Ok(p) && Parse(lex, a).Ok?
    ensures 0 < p.used <= |s|
    ensures Parse(lex, a) == Then(PlanOf(p.item), Parse(lex, s[p.used..]))
    ensures Parse(lex, a + x) == Then(PlanOf(p.item), Parse(lex, s[p.used..] + x))
  {
    ParseStep(lex, a, s, p);
    SkipConcat(a, x);
    ItemExtends(lex, s, x);
    RestBefore(s, x, p.used);
    ParseStep(lex, a + x, s + x, p);
  }

  lemma {:induction false} RestBefore(s: string, x: string, used: nat)
    requires used <= |s| && x != ""
    ensures (s + x)[used..] == s[used..] + x
    ensures used < |s| ==> (s + x)[used] == s[used]
    ensures used == |s| ==> (s + x)[used] == x[0]
  {
  }

  /** Two queries joined by a space parse to both plans in order, or to the error
      of the second; the look-ahead of `last` never crosses the joint. */
  lemma {:induction false} ParseJoins(lex: Lexicon, a: string, b: string)
    requires LastIsNoDate(lex) && Parse(lex, a).Ok?
    ensures Parse(lex, a + " " + b) == Then(Parse(lex, a).value, Parse(lex, b))
    decreases |a|
  {
    var x, s := " " + b, SkipSpace(a);
    Assoc(a, " ", b);
    if |s| == 0 {
      SkipConcat(a, x);
      SkipOne(' ', b);
      ParseSkips(lex, a + x, b);
      BothEmpty(EMPTY, Parse(lex, b));
    } else {
      var p := ItemAt(lex, s).value;
      StepBefore(lex, a, s, p, x);
      var rest := s[p.used..];
      Assoc(rest, " ", b);
      ParseJoins(lex, rest, b);
      BothAssociates(PlanOf(p.item), Parse(lex, rest).value, Parse(lex, b));
    }
  }

  lemma {:induction false} ParseSkips(lex: Lexicon, a: string, b: string)
    requires SkipSpace(a) == SkipSpace(b)
    ensures Parse(lex, a) == Parse(lex, b)
  {
  }

  lemma {:induction false} ParseStep(lex: Lexicon, input: string, s: string, p: Parsed)
    requires s == SkipSpace(input) && |s| > 0 && ItemAt(lex, s) == Ok(p)
    ensures 0 < p.used <= |s|
    ensures Parse(lex, input)
      == if p.used < |s| && !IsWhite(s[p.used]) then Err(ExpectedTerm)
         else Then(PlanOf(p.item), Parse(lex, s[p.used..]))
  {
    ItemUses(lex, s);
  }

  // ------------------------------------------------------------ the parsing loops

  lemma {:induction false} LeadFrom(s: string, start: nat, i: nat, p: char -> bool)
    requires start <= i <= |s| && (forall j :: start <= j < i ==> p(s[j])) && (i < |s| ==> !p(s[i]))
    ensures Lead(s[start..], p) == i - start
  {
    LeadUnique(s[start..], p, i - start);
  }

  method SkipSpaces(characters: string, start: nat) returns (i: nat)
    requires start <= |characters|
    ensures start <= i <= |characters| && i == start + Lead(characters[start..], IsWhite)
  {
    i := start;
    while i < |characters| && IsWhite(characters[i])
      invariant start <= i <= |characters| && forall j :: start <= j < i ==> IsWhite(characters[j])
    {
      i := i + 1;
    }
    LeadFrom(characters, start, i, IsWhite);
  }

  method BareEnd(characters: string, start: nat) returns (i: nat)
    requires start <= |characters|
    ensures start <= i <= |characters| && characters[start..i] == Word(characters[start..])
  {
    i := start;
    while i < |characters| && !IsWhite(characters[i])
      invariant start <= i <= |characters| && forall j :: start <= j < i ==> NotWhite(characters[j])
    {
      i := i + 1;
    }
    LeadFrom(characters, start, i, NotWhite);
  }

  function Shifted(r: Span, n: nat): Span {
    if r.Closed? then Closed(r.content, r.used + n) else r
  }

  /** `quoted` and `regexLiteral`: the scanning loop with its escape flag. */
  method ReadDelimited(characters: string, start: nat, close: char, keep: bool) returns (span: Span)
    requires start < |characters|
    ensures span == Delimited(characters[start + 1..], close, keep, false, "")
  {
    var i := start + 1;
    var value := "";
    var escaped := false;
    while i < |characters|
      invariant start < i <= |characters|
      invariant Delimited(characters[start + 1..], close, keep, false, "")
        == Shifted(Delimited(characters[i..], close, keep, escaped, value), i - start - 1)
    {
      var ch := characters[i];
      assert characters[i..][1..] == characters[i + 1..];
      i := i + 1;
      if escaped {
        value := value + (if keep then "\\" else "") + [ch];
        escaped := false;
      } else if ch == '\\' {
        escaped := true;
      } else if ch == close {
        return if |value| == 0 then Empty else Closed(value, i - start - 1);
      } else {
        value := value + [ch];
      }
    }
    span := Unclosed;
  }

  lemma {:induction false} UnitRead(lex: Lexicon, characters: string, end: nat, start: nat, stop: nat)
    requires end <= start <= stop <= |characters| && start == end + Lead(characters[end..], IsWhite)
    requires characters[start..stop] == Word(characters[start..])
    ensures UnitAfter(lex, characters[end..]) == (stop - end, Lowered(characters[start..stop], lex.lower))
  {
    assert characters[end..][start - end..] == characters[start..];
  }

  lemma {:induction false} DateOf(lex: Lexicon, value: string, rest: string, used: nat, unit: string)
    requires IsLast(lex, value) && UnitAfter(lex, rest) == (used, unit)
    ensures DateValue(lex, value, rest) == if IsDateUnit(unit) then (value + " " + unit, used) else (value, 0)
  {
  }

  /** The look-ahead for the unit of a relative date. */
  method ReadUnit(lex: Lexicon, characters: string, end: nat, value: string) returns (v: string, extra: nat)
    requires end <= |characters|
    ensures (v, extra) == DateValue(lex, value, characters[end..])
  {
    v, extra := value, 0;
    if IsLast(lex, value) {
      var unitStart := SkipSpaces(characters, end);
      var unitEnd := BareEnd(characters, unitStart);
      var unit := Lowered(characters[unitStart..unitEnd], lex.lower);
      UnitRead(lex, characters, end, unitStart, unitEnd);
      DateOf(lex, value, characters[end..], unitEnd - end, unit);
      if IsDateUnit(unit) {
        v, extra := value + " " + unit, unitEnd - end;
      }
    }
  }

  method ReadFilter(lex: Lexicon, characters: string, end: nat, field: Field, value: string, negated: bool)
    returns (r: Result<Parsed>)
    requires end <= |characters|
    ensures r == FilterItem(lex, field, value, characters[end..], negated)
  {
    var filterValue, extra := value, 0;
    if IsDateField(field) {
      filterValue, extra := ReadUnit(lex, characters, end, value);
      if !IsDateValue(lex, filterValue) {
        return Err(InvalidDate(filterValue));
      }
    }
    r := Ok(Parsed(OfFilter(Filter(field, filterValue, negated)), extra));
  }

  method ReadBare(lex: Lexicon, characters: string, start: nat, negated: bool) returns (r: Result<Parsed>)
    requires start < |characters|
    ensures r == BareItem(lex, characters[start..], negated)
  {
    var end := BareEnd(characters, start);
    var value := characters[start..end];
    if |value| == 0 {
      return Err(ExpectedTerm);
    }
    var op := Operator(lex, value);
    if op.Err? {
      return Err(op.error);
    }
    if op.value.None? {
      return Ok(Parsed(OfTerm(Term(value, false, negated)), |value|));
    }
    assert characters[start..][|value|..] == characters[end..];
    r := ReadFilter(lex, characters, end, op.value.value.0, op.value.value.1, negated);
    r := Later(r, |value|);
  }

  method ReadPlain(lex: Lexicon, characters: string, start: nat, negated: bool) returns (r: Result<Parsed>)
    requires start < |characters|
    ensures r == PlainItem(lex, characters[start..], negated)
  {
    assert characters[start..][1..] == characters[start + 1..];
    if characters[start] == '\"' {
      var span := ReadDelimited(characters, start, '\"', false);
      match span {
        case Closed(value, used) => r := Ok(Parsed(OfTerm(Term(value, true, negated)), used + 1));
        case Empty => r := Err(EmptyPhrase);
        case Unclosed => r := Err(UnterminatedPhrase);
      }
    } else if characters[start] == '/' {
      var span := ReadDelimited(characters, start, '/', true);
      match span {
        case Closed(pattern, used) =>
          if lex.isPattern(pattern) {
            r := Ok(Parsed(OfRegex(Regex(pattern, negated)), used + 1));
          } else {
            r := Err(InvalidRegex(pattern));
          }
        case Empty => r := Err(EmptyRegex);
        case Unclosed => r := Err(UnterminatedRegex);
      }
    } else {
      r := ReadBare(lex, characters, start, negated);
    }
  }

  method ReadItem(lex: Lexicon, characters: string, start: nat) returns (r: Result<Parsed>)
    requires start < |characters|
    ensures r == ItemAt(lex, characters[start..])
  {
    if characters[start] == '-' {
      assert characters[start..][1..] == characters[start + 1..];
      if start + 1 >= |characters| || IsWhite(characters[start + 1]) {
        return Err(NegationWithoutTerm);
      }
      r := ReadPlain(lex, characters, start + 1, true);
      r := Later(r, 1);
    } else {
      r := ReadPlain(lex, characters, start, false);
    }
  }

  /** The main loop: an index into the characters and a growing plan. */
  method ParseQuery(lex: Lexicon, input: string) returns (r: Result<Plan>)
    ensures r == Parse(lex, input)
  {
    var plan := EMPTY;
    var i := 0;
    BothEmpty(plan, Parse(lex, input));
    assert input[0..] == input;
    while true
      invariant i <= |input| && Parse(lex, input) == Then(plan, Parse(lex, input[i..]))
      decreases |input| - i
    {
      var start := SkipSpaces(input, i);
      assert SkipSpace(input[i..]) == input[start..];
      if start >= |input| {
        BothEmpty(plan, Ok(EMPTY));
        return Ok(plan);
      }
      var item := ReadItem(lex, input, start);
      if item.Err? {
        return Err(item.error);
      }
      ParseStep(lex, input[i..], input[start..], item.value);
      i := start + item.value.used;
      assert input[start..][item.value.used..] == input[i..];
      if i < |input| && !IsWhite(input[i]) {
        return Err(ExpectedTerm);
      }
      BothAssociates(plan, PlanOf(item.value.item), Parse(lex, input[i..]));
      plan := Both(plan, PlanOf(item.value.item));
    }
  }
}
