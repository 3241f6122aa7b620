/** Applying a parsed query and the filter chips to notes: joined queries select
    the common notes, and a typed filter is the chip of the same name. */
module QueryFilter {
  import opened Text
  import opened TokenOrder
  import opened QueryParser
  import opened QueryShapes

  datatype Note = Note(path: string, filename: string, fileType: string, title: string, body: string,
                       tags: seq<string>, created: string, documentDate: string, modifiedAt: real,
                       correspondent: string, documentType: string, status: string, dueDate: string,
                       confidence: int, attachments: seq<string>, searchText: string)

  /** Letter case, diacritics, regular expressions, and calendar ranges: whether a
      date lies in what one date expression denotes. */
  datatype Engine = Engine(lower: char -> char, plain: char -> char, finds: (string, string) -> bool,
                           createdIn: (string, string) -> bool, modifiedIn: (real, string) -> bool)

  /** The selection of filter chips. */
  datatype Chips = Chips(tags: seq<string>, correspondents: seq<string>, documentTypes: seq<string>,
                         dateRange: Option<(string, string)>, notesOnly: bool, documentsOnly: bool)

  const NO_CHIPS := Chips([], [], [], None, false, false)

  predicate IsDocument(note: Note) {
    note.documentType != "" || note.status != "" || note.dueDate != "" || note.confidence > 0 || note.attachments != []
  }

  // ---------------------------------------------------------------- predicates

  predicate SameIgnoringCase(eng: Engine, a: string, b: string) {
    Lowered(a, eng.lower) == Lowered(b, eng.lower)
  }

  predicate HasTag(eng: Engine, note: Note, tag: string) {
    exists i :: 0 <= i < |note.tags| && SameIgnoringCase(eng, note.tags[i], tag)
  }

  predicate IsDot(c: char) {
    c == '.'
  }

  /** Whether a note has one alternative of a filter. */
  predicate HasValue(eng: Engine, note: Note, field: Field, value: string) {
    match field
    case Path => Contains(Lowered(note.path, eng.lower), Lowered(value, eng.lower))
    case Filename => Contains(Lowered(note.filename, eng.lower), Lowered(value, eng.lower))
    case Filetype => Lowered(note.fileType, eng.lower) == Lowered(Trim(value, IsDot), eng.lower)
    case Created => eng.createdIn(note.created, value)
    case Modified => eng.modifiedIn(note.modifiedAt, value)
    case Tag => HasTag(eng, note, value)
    case Type => SameIgnoringCase(eng, note.documentType, value)
    case Status => SameIgnoringCase(eng, note.status, value)
  }

  /** Some comma-separated alternative holds. Dates are handed to the calendar as
      they are; other alternatives are trimmed and must not be blank. */
  predicate AnyValue(eng: Engine, note: Note, field: Field, value: string) {
    var parts := Split(value, ',');
    exists i :: 0 <= i < |parts| && |parts[i]| > 0 &&
      if IsDateField(field) then HasValue(eng, note, field, parts[i])
      else |Trim(parts[i], IsBlank)| > 0 && HasValue(eng, note, field, Trim(parts[i], IsBlank))
  }

  predicate MatchesFilter(eng: Engine, note: Note, f: Filter) {
    if f.negated then !AnyValue(eng, note, f.field, f.value) else AnyValue(eng, note, f.field, f.value)
  }

  function Normalized(eng: Engine, s: string): string {
    Lowered(Trim(s, IsWhite), eng.plain)
  }

  /** Some word of the text, as cut by white space, starts with `part`. */
  predicate SomeWordStarts(s: string, part: string) {
    exists i :: 0 <= i < |s| && !IsWhite(s[i]) && (i == 0 || IsWhite(s[i - 1])) && part <= Word(s[i..])
  }

  predicate HasTerm(eng: Engine, note: Note, term: Term) {
    var normalized := Normalized(eng, term.value);
    if term.phrase then Contains(note.searchText, normalized) else SomeWordStarts(note.searchText, normalized)
  }

  predicate MatchesTerm(eng: Engine, note: Note, term: Term) {
    Normalized(eng, term.value) != "" && if term.negated then !HasTerm(eng, note, term) else HasTerm(eng, note, term)
  }

  predicate MatchesRegex(eng: Engine, note: Note, regex: Regex) {
    var found := eng.finds(regex.pattern, note.title + "\n" + note.body);
    if regex.negated then !found else found
  }

  predicate MatchesChips(eng: Engine, note: Note, ui: Chips) {
    && (forall i :: 0 <= i < |ui.tags| ==> HasTag(eng, note, ui.tags[i]))
    && (ui.correspondents == [] ||
        exists i :: 0 <= i < |ui.correspondents| && SameIgnoringCase(eng, ui.correspondents[i], note.correspondent))
    && (ui.documentTypes == [] ||
        exists i :: 0 <= i < |ui.documentTypes| && SameIgnoringCase(eng, ui.documentTypes[i], note.documentType))
    && (ui.dateRange.Some? ==>
          var date := if note.documentDate == "" then note.created else note.documentDate;
          var day := date[..if |date| < 10 then |date| else 10];
          !Less(day, ui.dateRange.value.0) && !Less(ui.dateRange.value.1, day))
    && !(ui.notesOnly && IsDocument(note))
    && !(ui.documentsOnly && !IsDocument(note))
  }

  predicate MatchesPlan(eng: Engine, note: Note, plan: Plan) {
    && (forall f :: f in plan.filters ==> MatchesFilter(eng, note, f))
    && (forall t :: t in plan.terms ==> MatchesTerm(eng, note, t))
    && (forall r :: r in plan.regexes ==> MatchesRegex(eng, note, r))
  }

  predicate Matches(eng: Engine, note: Note, plan: Plan, ui: Chips) {
    MatchesPlan(eng, note, plan) && MatchesChips(eng, note, ui)
  }

  /** The matching notes, in order. */
  function Select(eng: Engine, notes: seq<Note>, plan: Plan, ui: Chips): seq<Note> {
    if |notes| == 0 then []
    else (if Matches(eng, notes[0], plan, ui) then [notes[0]] else []) + Select(eng, notes[1..], plan, ui)
  }

  // ------------------------------------------------------------- joined queries

  lemma {:induction false} MatchesBoth(eng: Engine, note: Note, p: Plan, q: Plan)
    ensures MatchesPlan(eng, note, Both(p, q)) <==> MatchesPlan(eng, note, p) && MatchesPlan(eng, note, q)
  {
    var both := Both(p, q);
    assert forall f :: f in both.filters <==> f in p.filters || f in q.filters;
    assert forall t :: t in both.terms <==> t in p.terms || t in q.terms;
    assert forall r :: r in both.regexes <==> r in p.regexes || r in q.regexes;
  }

  /** A note matches two queries written one after the other exactly when it
      matches each of them. */
  lemma {:induction false} JoinedQueryMatches(lex: Lexicon, eng: Engine, a: string, b: string, note: Note, ui: Chips)
    requires LastIsNoDate(lex) && Parse(lex, a).Ok? && Parse(lex, b).Ok?
    ensures Parse(lex, a + " " + b).Ok?
    ensures Matches(eng, note, Parse(lex, a + " " + b).value, ui)
      <==> Matches(eng, note, Parse(lex, a).value, ui) && Matches(eng, note, Parse(lex, b).value, ui)
  {
    ParseJoins(lex, a, b);
    MatchesBoth(eng, note, Parse(lex, a).value, Parse(lex, b).value);
  }

  lemma {:induction false} SelectConcat(eng: Engine, a: seq<Note>, b: seq<Note>, plan: Plan, ui: Chips)
    ensures Select(eng, a + b, plan, ui) == Select(eng, a, plan, ui) + Select(eng, b, plan, ui)
  {
    if |a| == 0 {
      assert a + b == b;
    } else {
      TailOfConcat(a, b);
      SelectConcat(eng, a[1..], b, plan, ui);
      Assoc(if Matches(eng, a[0], plan, ui) then [a[0]] else [],
            Select(eng, a[1..], plan, ui), Select(eng, b, plan, ui));
    }
  }

  /** Searching within the results of a first query is searching for both. */
  lemma {:induction false} SelectBoth(eng: Engine, notes: seq<Note>, p: Plan, q: Plan, ui: Chips)
    ensures Select(eng, Select(eng, notes, p, ui), q, ui) == Select(eng, notes, Both(p, q), ui)
  {
    if |notes| > 0 {
      var first := if Matches(eng, notes[0], p, ui) then [notes[0]] else [];
      MatchesBoth(eng, notes[0], p, q);
      SelectBoth(eng, notes[1..], p, q, ui);
      SelectConcat(eng, first, Select(eng, notes[1..], p, ui), q, ui);
      if |first| == 1 {
        assert first[1..] == [];
      }
    }
  }

  /** A negated term selects the complement, unless it is blank after trimming:
      then neither the term nor its negation matches anything. */
  lemma {:induction false} NegationComplements(eng: Engine, note: Note, term: Term)
    requires !term.negated
    ensures (MatchesTerm(eng, note, term.(negated := true)) <==> !MatchesTerm(eng, note, term))
      <==> Normalized(eng, term.value) != ""
  {
    assert HasTerm(eng, note, term.(negated := true)) == HasTerm(eng, note, term);
  }

  // -------------------------------------------------------------- typed or chip

  ghost predicate OneWord(x: string) {
    x != "" && forall i :: 0 <= i < |x| ==> !IsWhite(x[i])
  }

  /** Lower-case letters are their own lower case. */
  ghost predicate KeepsLower(lex: Lexicon) {
    forall c :: 'a' <= c <= 'z' ==> lex.lower(c) == c
  }

  lemma {:induction false} OneWordIff(x: string)
    ensures OneWord(x) <==> x != "" && Word(x) == x
  {
    LeadRun(x, NotWhite);
    if OneWord(x) {
      LeadUnique(x, NotWhite, |x|);
    }
  }

  predicate IsName(name: string) {
    |name| > 0 && forall i :: 0 <= i < |name| ==> 'a' <= name[i] <= 'z'
  }

  lemma {:induction false} OperatorOf(lex: Lexicon, name: string, w: string, field: Field)
    requires KeepsLower(lex) && IsName(name) && FieldNamed(name) == Some(field)
    ensures Operator(lex, name + ":" + w)
      == if w == "" then Err(OperatorRequiresValue(name + ":")) else Ok(Some((field, w)))
  {
    var token := name + ":" + w;
    assert token[..|name|] == name && token[|name|] == ':';
    LeadUnique(token, NotColon, |name|);
    assert token[|name| + 1..] == w;
    assert Lowered(name, lex.lower) == name;
  }

  /** The first word behind the operator is all that it takes. */
  lemma {:induction false} HeadWord(name: string, x: string)
    requires IsName(name)
    ensures Word(name + ":" + x) == name + ":" + Word(x)
  {
    var s, n := name + ":" + x, |name| + 1 + |Word(x)|;
    LeadRun(x, NotWhite);
    forall i | 0 <= i < n ensures NotWhite(s[..n][i]) {
      if i > |name| {
        assert s[i] == x[i - |name| - 1] == Word(x)[i - |name| - 1];
      }
    }
    LeadUnique(s, NotWhite, n);
    assert s[..n] == name + ":" + Word(x);
  }

  lemma {:induction false} HeadItem(lex: Lexicon, s: string, field: Field, w: string)
    requires |s| > 0 && 'a' <= s[0] <= 'z' && !IsDateField(field)
    requires Operator(lex, Word(s)) == Ok(Some((field, w)))
    ensures ItemAt(lex, s) == Ok(Parsed(OfFilter(Filter(field, w, false)), |Word(s)|))
  {
    assert |Word(s)| > 0;
    assert ItemAt(lex, s) == BareItem(lex, s, false);
  }

  lemma {:induction false} NoItem(lex: Lexicon, s: string)
    requires |s| > 0 && 'a' <= s[0] <= 'z' && |Word(s)| > 0 && Operator(lex, Word(s)).Err?
    ensures Parse(lex, s).Err?
  {
    LeadUnique(s, IsWhite, 0);
    assert ItemAt(lex, s) == BareItem(lex, s, false);
  }

  /** A typed `name:x` is an error without a word directly behind the colon, and
      otherwise starts with the filter for that word. */
  lemma {:induction false} TypedHead(lex: Lexicon, name: string, x: string, field: Field)
    requires KeepsLower(lex) && IsName(name) && FieldNamed(name) == Some(field) && !IsDateField(field)
    ensures var r := Parse(lex, name + ":" + x);
      && (Word(x) == "" ==> r.Err?)
      && (x != "" && Word(x) == x ==> r == Ok(Plan([Filter(field, x, false)], [], [])))
      && (r.Ok? ==> Filter(field, Word(x), false) in r.value.filters)
  {
    var s, w := name + ":" + x, Word(x);
    HeadWord(name, x);
    OperatorOf(lex, name, w, field);
    assert s[0] == name[0];
    if w == "" {
      NoItem(lex, s);
    } else {
      HeadItem(lex, s, field, w);
      FirstFilter(lex, s, Filter(field, w, false), |Word(s)|);
    }
  }

  lemma {:induction false} FirstFilter(lex: Lexicon, s: string, f: Filter, used: nat)
    requires |s| > 0 && !IsWhite(s[0]) && ItemAt(lex, s) == Ok(Parsed(OfFilter(f), used))
    ensures used == |s| ==> Parse(lex, s) == Ok(Plan([f], [], []))
    ensures Parse(lex, s).Ok? ==> f in Parse(lex, s).value.filters
  {
    var p := Parsed(OfFilter(f), used);
    LeadUnique(s, IsWhite, 0);
    ParseStep(lex, s, s, p);
    if used == |s| {
      LoneItem(lex, s, p);
    } else if Parse(lex, s).Ok? {
      var rest := Parse(lex, s[used..]).value;
      assert ([f] + rest.filters)[0] == f;
    }
  }

  /** One filter value without a comma stands for itself. */
  lemma {:induction false} SingleValue(eng: Engine, note: Note, field: Field, x: string)
    requires OneWord(x) && ',' !in x && !IsDateField(field)
    ensures AnyValue(eng, note, field, x) <==> HasValue(eng, note, field, x)
  {
    SplitWhole(x, ',');
    var parts := Split(x, ',');
    assert parts == [x] && parts[0] == x;
    assert !IsBlank(x[0]) && !IsBlank(x[|x| - 1]);
    TrimOfTrimmed(x, IsBlank);
  }

  lemma {:induction false} TrimNotLonger(s: string, p: char -> bool)
    ensures |Trim(s, p)| <= |s|
  {
  }

  lemma {:induction false} PiecesShorter(x: string, i: nat)
    requires ',' in x && i < |Split(x, ',')|
    ensures |Split(x, ',')[i]| < |x|
  {
    var k :| 0 <= k < |x| && x[k] == ',';
    var a, b := x[..k], x[k + 1..];
    assert x == a + [','] + b;
    SplitAt(a, b, ',');
    if i < |Split(a, ',')| {
      PieceNotLonger(a, i);
    } else {
      PieceNotLonger(b, i - |Split(a, ',')|);
    }
  }

  lemma {:induction false} PieceNotLonger(x: string, i: nat)
    requires i < |Split(x, ',')|
    ensures |Split(x, ',')[i]| <= |x|
  {
    if |x| > 0 {
      if x[0] == ',' && i > 0 {
        PieceNotLonger(x[1..], i - 1);
      } else if x[0] != ',' {
        PieceNotLonger(x[1..], i);
      }
    }
  }

  /** A filter value never stands for a longer text, and with a comma not for
      itself: no alternative is as long. */
  lemma {:induction false} ShortValue(eng: Engine, note: Note, field: Field, w: string, x: string)
    requires |w| < |x| || (w == x && ',' in x)
    requires field == Tag || field == Type
    requires note.tags == [x] && note.documentType == x
    ensures !AnyValue(eng, note, field, w)
  {
    var parts := Split(w, ',');
    forall i | 0 <= i < |parts| ensures !HasValue(eng, note, field, Trim(parts[i], IsBlank)) {
      if w == x {
        PiecesShorter(x, i);
      } else {
        PieceNotLonger(w, i);
      }
      TrimNotLonger(parts[i], IsBlank);
      assert |Lowered(Trim(parts[i], IsBlank), eng.lower)| < |Lowered(x, eng.lower)|;
    }
  }

  /** A note that only has the tag and the type `x`. */
  function Labelled(x: string): Note {
    Note("", "", "", "", "", [x], "", "", 0.0, "", x, "", "", 0, [], "")
  }

  predicate Typed(eng: Engine, note: Note, field: Field, x: string) {
    Matches(eng, note, Plan([Filter(field, x, false)], [], []), NO_CHIPS)
  }

  predicate TagChip(eng: Engine, note: Note, x: string) {
    Matches(eng, note, EMPTY, NO_CHIPS.(tags := [x]))
  }

  predicate TypeChip(eng: Engine, note: Note, x: string) {
    Matches(eng, note, EMPTY, NO_CHIPS.(documentTypes := [x]))
  }

  lemma {:induction false} TypedIsValue(eng: Engine, note: Note, field: Field, x: string)
    ensures Typed(eng, note, field, x) <==> AnyValue(eng, note, field, x)
  {
    var plan := Plan([Filter(field, x, false)], [], []);
    assert plan.filters[0] in plan.filters;
    assert MatchesChips(eng, note, NO_CHIPS);
  }

  lemma {:induction false} ChipsAreValues(eng: Engine, note: Note, x: string)
    ensures TagChip(eng, note, x) <==> HasValue(eng, note, Tag, x)
    ensures TypeChip(eng, note, x) <==> HasValue(eng, note, Type, x)
  {
    var tags, types := NO_CHIPS.(tags := [x]), NO_CHIPS.(documentTypes := [x]);
    assert tags.tags[0] == x && types.documentTypes[0] == x;
    assert MatchesPlan(eng, note, EMPTY);
  }

  /** The note that tells the typed form from the chip. */
  lemma {:induction false} TypedMisses(eng: Engine, plan: Plan, field: Field, w: string, x: string)
    requires Filter(field, w, false) in plan.filters && (field == Tag || field == Type)
    requires |w| < |x| || (w == x && ',' in x)
    ensures !Matches(eng, Labelled(x), plan, NO_CHIPS)
    ensures TagChip(eng, Labelled(x), x) && TypeChip(eng, Labelled(x), x)
  {
    var note, f := Labelled(x), Filter(field, w, false);
    ShortValue(eng, note, field, w, x);
    assert !MatchesFilter(eng, note, f);
    ChipsAreValues(eng, note, x);
    assert SameIgnoringCase(eng, note.tags[0], x);
  }

  lemma {:induction false} SingleAgrees(eng: Engine, note: Note, x: string)
    requires OneWord(x) && ',' !in x
    ensures Typed(eng, note, Tag, x) <==> TagChip(eng, note, x)
    ensures Typed(eng, note, Type, x) <==> TypeChip(eng, note, x)
  {
    SingleValue(eng, note, Tag, x);
    SingleValue(eng, note, Type, x);
    TypedIsValue(eng, note, Tag, x);
    TypedIsValue(eng, note, Type, x);
    ChipsAreValues(eng, note, x);
  }

  /** A parsed query selects what the tag chip selects, whatever the notes. */
  ghost predicate TagsAgree(eng: Engine, plan: Plan, x: string) {
    forall note :: Matches(eng, note, plan, NO_CHIPS) <==> TagChip(eng, note, x)
  }

  ghost predicate TypesAgree(eng: Engine, plan: Plan, x: string) {
    forall note :: Matches(eng, note, plan, NO_CHIPS) <==> TypeChip(eng, note, x)
  }

  /** Typing `tag:x` is a query and selects what the tag chip `x` selects, on every
      note, exactly when `x` is one word without a comma: the typed form ends at
      white space and reads commas as alternatives. */
  lemma {:induction false} TypedTagIsChip(lex: Lexicon, eng: Engine, x: string)
    requires KeepsLower(lex)
    ensures Parse(lex, "tag:" + x).Ok? && TagsAgree(eng, Parse(lex, "tag:" + x).value, x)
      <==> OneWord(x) && ',' !in x
  {
    assert "tag" + ":" + x == "tag:" + x;
    TypedHead(lex, "tag", x, Tag);
    AgreeIff(eng, Parse(lex, "tag:" + x), Tag, x);
  }

  /** The same for `type:x` and the chip of a document type. */
  lemma {:induction false} TypedTypeIsChip(lex: Lexicon, eng: Engine, x: string)
    requires KeepsLower(lex)
    ensures Parse(lex, "type:" + x).Ok? && TypesAgree(eng, Parse(lex, "type:" + x).value, x)
      <==> OneWord(x) && ',' !in x
  {
    assert "type" + ":" + x == "type:" + x;
    TypedHead(lex, "type", x, Type);
    AgreeIff(eng, Parse(lex, "type:" + x), Type, x);
  }

  lemma {:induction false} AgreeIff(eng: Engine, r: Result<Plan>, field: Field, x: string)
    requires field == Tag || field == Type
    requires Word(x) == "" ==> r.Err?
    requires x != "" && Word(x) == x ==> r == Ok(Plan([Filter(field, x, false)], [], []))
    requires r.Ok? ==> Filter(field, Word(x), false) in r.value.filters
    ensures field == Tag ==> (r.Ok? && TagsAgree(eng, r.value, x) <==> OneWord(x) && ',' !in x)
    ensures field == Type ==> (r.Ok? && TypesAgree(eng, r.value, x) <==> OneWord(x) && ',' !in x)
  {
    OneWordIff(x);
    if OneWord(x) && ',' !in x {
      forall note
        ensures Typed(eng, note, Tag, x) <==> TagChip(eng, note, x)
        ensures Typed(eng, note, Type, x) <==> TypeChip(eng, note, x)
      {
        SingleAgrees(eng, note, x);
      }
    } else if r.Ok? {
      TypedMisses(eng, r.value, field, Word(x), x);
    }
  }
}
