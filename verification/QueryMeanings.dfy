/** From the typed query to the notes: what each operator, word, pattern and chip
    selects, in terms of the text that was typed, and what is refused. */
module QueryMeanings {
  import opened Text
  import opened TokenOrder
  import opened QueryParser
  import opened QueryShapes
  import opened QueryFilter

  // ---------------------------------------------------------------- texts in texts

  /** `part` stands somewhere in `s`. */
  ghost predicate Occurs(part: string, s: string) {
    exists a, b :: s == a + part + b
  }

  lemma {:induction false} ContainsIff(s: string, part: string)
    ensures Contains(s, part) <==> Occurs(part, s)
  {
    if Contains(s, part) {
      var i :| 0 <= i <= |s| - |part| && s[i..][..|part|] == part;
      assert s == s[..i] + part + s[i + |part|..];
    }
    forall a, b | s == a + part + b ensures Contains(s, part) {
      assert s[|a|..][..|part|] == part;
    }
  }

  /** `part` starts a word of `s`. */
  ghost predicate StartsWord(part: string, s: string) {
    exists a, b :: s == a + part + b && (a == "" || IsWhite(a[|a| - 1]))
  }

  lemma {:induction false} SomeWordIff(s: string, part: string)
    requires OneWord(part)
    ensures SomeWordStarts(s, part) <==> StartsWord(part, s)
  {
    if SomeWordStarts(s, part) {
      var i :| 0 <= i < |s| && !IsWhite(s[i]) && (i == 0 || IsWhite(s[i - 1])) && part <= Word(s[i..]);
      WordPrefix(s, i, part);
    }
    forall a, b | s == a + part + b && (a == "" || IsWhite(a[|a| - 1])) ensures SomeWordStarts(s, part) {
      PrefixWord(s, a, part, b);
    }
  }

  lemma {:induction false} WordPrefix(s: string, i: nat, part: string)
    requires i < |s| && (i == 0 || IsWhite(s[i - 1])) && part <= Word(s[i..])
    ensures StartsWord(part, s)
  {
    var n := |part|;
    assert part == Word(s[i..])[..n] == s[i..i + n];
    assert s == s[..i] + part + s[i + n..];
  }

  lemma {:induction false} PrefixWord(s: string, a: string, part: string, b: string)
    requires s == a + part + b && OneWord(part) && (a == "" || IsWhite(a[|a| - 1]))
    ensures SomeWordStarts(s, part)
  {
    var i := |a|;
    assert s[i..] == part + b && s[i] == part[0];
    LeadAtLeast(part, b);
    assert (part + b)[..Lead(part + b, NotWhite)][..|part|] == part;
    assert !IsWhite(part[0]);
    if i > 0 {
      assert s[i - 1] == a[i - 1];
    }
    WordAt(s, i, part);
  }

  lemma {:induction false} WordAt(s: string, i: nat, part: string)
    requires i < |s| && !IsWhite(s[i]) && (i == 0 || IsWhite(s[i - 1])) && part <= Word(s[i..])
    ensures SomeWordStarts(s, part)
  {
  }

  lemma {:induction false} LeadAtLeast(part: string, b: string)
    requires forall i :: 0 <= i < |part| ==> NotWhite(part[i])
    ensures Lead(part + b, NotWhite) >= |part|
  {
    if |part| > 0 {
      TailOfConcat(part, b);
      LeadAtLeast(part[1..], b);
    }
  }

  // -------------------------------------------------------------------- operators

  /** What `name:x` asks of a note, for one word `x`. */
  ghost predicate Asks(eng: Engine, note: Note, name: string, x: string) {
    var low := Lowered(x, eng.lower);
    match name
    case "path" => Occurs(low, Lowered(note.path, eng.lower))
    case "filename" => Occurs(low, Lowered(note.filename, eng.lower))
    case "filetype" => Lowered(note.fileType, eng.lower) == Lowered(Trim(x, IsDot), eng.lower)
    case "tag" => exists i :: 0 <= i < |note.tags| && Lowered(note.tags[i], eng.lower) == low
    case "type" => Lowered(note.documentType, eng.lower) == low
    case "status" => Lowered(note.status, eng.lower) == low
    case _ => false
  }

  lemma {:induction false} AsksIsValue(eng: Engine, note: Note, name: string, field: Field, x: string)
    requires FieldNamed(name) == Some(field) && name in {"path", "filename", "filetype", "tag", "type", "status"}
    ensures Asks(eng, note, name, x) <==> HasValue(eng, note, field, x)
    ensures !IsDateField(field) && IsName(name)
  {
    ContainsIff(Lowered(note.path, eng.lower), Lowered(x, eng.lower));
    ContainsIff(Lowered(note.filename, eng.lower), Lowered(x, eng.lower));
  }

  /** A typed operator selects exactly the notes that it asks for. */
  lemma {:induction false} OperatorSelects(lex: Lexicon, eng: Engine, note: Note, name: string, x: string)
    requires KeepsLower(lex) && name in {"path", "filename", "filetype", "tag", "type", "status"}
    requires OneWord(x) && ',' !in x
    ensures Parse(lex, name + ":" + x).Ok?
    ensures Matches(eng, note, Parse(lex, name + ":" + x).value, NO_CHIPS) <==> Asks(eng, note, name, x)
  {
    var field := FieldNamed(name).value;
    AsksIsValue(eng, note, name, field, x);
    TypedHead(lex, name, x, field);
    OneWordIff(x);
    TypedIsValue(eng, note, field, x);
    SingleValue(eng, note, field, x);
  }

  /** A date operator keeps the date as it was typed, and is refused if it is none. */
  lemma {:induction false} DateOperator(lex: Lexicon, name: string, x: string)
    requires KeepsLower(lex) && name in {"created", "modified"} && OneWord(x) && !IsLast(lex, x)
    ensures var field := if name == "created" then Created else Modified;
      Parse(lex, name + ":" + x)
        == if IsDateValue(lex, x) then Ok(Plan([Filter(field, x, false)], [], [])) else Err(InvalidDate(x))
  {
    var field, s := if name == "created" then Created else Modified, name + ":" + x;
    HeadWord(name, x);
    OneWordIff(x);
    OperatorOf(lex, name, x, field);
    assert s[0] == name[0] && Word(s) == s;
    DateItem(lex, s, field, x, "");
    if IsDateValue(lex, x) {
      LoneItem(lex, s, Parsed(OfFilter(Filter(field, x, false)), |s|));
    } else {
      LeadUnique(s, IsWhite, 0);
    }
  }

  lemma {:induction false} DateItem(lex: Lexicon, s: string, field: Field, x: string, rest: string)
    requires |s| > 0 && 'a' <= s[0] <= 'z' && Word(s) == s && IsDateField(field) && !IsLast(lex, x)
    requires Operator(lex, s) == Ok(Some((field, x)))
    ensures ItemAt(lex, s)
      == if IsDateValue(lex, x) then Ok(Parsed(OfFilter(Filter(field, x, false)), |s|)) else Err(InvalidDate(x))
  {
    assert ItemAt(lex, s) == BareItem(lex, s, false);
  }

  /** Operators are known in any case of their letters. */
  lemma {:induction false} OperatorIgnoresCase(lex: Lexicon, typed: string, name: string, field: Field, value: string)
    requires ':' !in typed && Lowered(typed, lex.lower) == name && FieldNamed(name) == Some(field) && value != ""
    ensures Operator(lex, typed + ":" + value) == Ok(Some((field, value)))
  {
    var token := typed + ":" + value;
    assert token[..|typed|] == typed && token[|typed|] == ':' && token[|typed| + 1..] == value;
    forall i | 0 <= i < |typed| ensures NotColon(token[i]) {
      assert token[i] in typed;
    }
    LeadUnique(token, NotColon, |typed|);
  }

  /** The word `last` takes the unit behind it, in any case of their letters and with
      any white space between them. */
  lemma {:induction false} LastTakesUnit(lex: Lexicon, name: string, last: string, blanks: string, typed: string,
                                         unit: string)
    requires KeepsLower(lex) && lex.lower(' ') == ' ' && name in {"created", "modified"}
    requires OneWord(last) && ',' !in last && Lowered(last, lex.lower) == "last"
    requires OneWord(typed) && Lowered(typed, lex.lower) == unit && unit in {"day", "week", "month", "year"}
    requires blanks != "" && Only(blanks, IsWhite)
    ensures Parse(lex, name + ":" + last + (blanks + typed))
      == Ok(Plan([Filter(if name == "created" then Created else Modified, last + " " + unit, false)], [], []))
  {
    RelativeDate(lex, last, unit);
    UnitBehind(lex, blanks, typed);
    LastAndUnit(lex, name, if name == "created" then Created else Modified, last, blanks + typed, unit);
  }

  lemma {:induction false} LastAndUnit(lex: Lexicon, name: string, field: Field, last: string, rest: string,
                                       unit: string)
    requires KeepsLower(lex) && IsName(name) && FieldNamed(name) == Some(field) && IsDateField(field)
    requires OneWord(last) && IsLast(lex, last) && rest != "" && IsWhite(rest[0])
    requires UnitAfter(lex, rest) == (|rest|, unit) && IsDateUnit(unit) && IsDateValue(lex, last + " " + unit)
    ensures Parse(lex, name + ":" + last + rest) == Ok(Plan([Filter(field, last + " " + unit, false)], [], []))
  {
    var s, w := name + ":" + last + rest, name + ":" + last;
    LastParts(name, last, rest, s);
    OperatorOf(lex, name, last, field);
    RelativeItem(lex, s, w, field, last, rest, unit);
    LoneItem(lex, s, Parsed(OfFilter(Filter(field, last + " " + unit, false)), |s|));
  }

  lemma {:induction false} LastParts(name: string, last: string, rest: string, s: string)
    requires IsName(name) && OneWord(last) && s == name + ":" + last + rest && rest != "" && IsWhite(rest[0])
    ensures var w := name + ":" + last; Word(s) == w && s == w + rest && s[0] == name[0] && s[|w|..] == rest
  {
    var t := last + rest;
    assert s == name + ":" + t;
    HeadWord(name, t);
    assert t[..|last|] == last && t[|last|] == rest[0];
    LeadUnique(t, NotWhite, |last|);
  }

  lemma {:induction false} UnitBehind(lex: Lexicon, blanks: string, typed: string)
    requires OneWord(typed) && Only(blanks, IsWhite)
    ensures UnitAfter(lex, blanks + typed) == (|blanks| + |typed|, Lowered(typed, lex.lower))
  {
    var rest := blanks + typed;
    assert rest[..|blanks|] == blanks && rest[|blanks|] == typed[0];
    LeadUnique(rest, IsWhite, |blanks|);
    assert rest[|blanks|..] == typed && typed[..|typed|] == typed;
    LeadUnique(typed, NotWhite, |typed|);
  }

  lemma {:induction false} RelativeDate(lex: Lexicon, last: string, unit: string)
    requires KeepsLower(lex) && lex.lower(' ') == ' ' && unit in {"day", "week", "month", "year"}
    requires OneWord(last) && ',' !in last && Lowered(last, lex.lower) == "last"
    ensures IsDateValue(lex, last + " " + unit)
  {
    var v, low := last + " " + unit, "last " + unit;
    UnitLetters(unit);
    assert v[0] == last[0] && v[|v| - 1] == unit[|unit| - 1];
    forall i | 0 <= i < |v| ensures v[i] != ',' && lex.lower(v[i]) == low[i] {
      if i < |last| {
        assert lex.lower(last[i]) == "last"[i] && last[i] in last;
      } else if i > |last| {
        assert v[i] == unit[i - |last| - 1];
      }
    }
    assert Lowered(v, lex.lower) == low;
    SplitWhole(v, ',');
    TrimOfTrimmed(v, IsBlank);
    RelativeExpression(lex, v, low);
  }

  lemma {:induction false} UnitLetters(unit: string)
    requires unit in {"day", "week", "month", "year"}
    ensures unit != "" && (forall i :: 0 <= i < |unit| ==> 'a' <= unit[i] <= 'z') && IsRelative("last " + unit)
  {
    var v := "last " + unit;
    assert v == "last day" || v == "last week" || v == "last month" || v == "last year";
  }

  lemma {:induction false} RelativeExpression(lex: Lexicon, v: string, low: string)
    requires Split(v, ',') == [v] && Trim(v, IsBlank) == v && Lowered(v, lex.lower) == low && IsRelative(low)
    ensures IsDateValue(lex, v)
  {
    assert [v][0] == v;
  }

  lemma {:induction false} RelativeItem(lex: Lexicon, s: string, w: string, field: Field, last: string, rest: string,
                                        unit: string)
    requires |s| > 0 && 'a' <= s[0] <= 'z' && Word(s) == w && s == w + rest && s[|w|..] == rest && IsDateField(field)
    requires Operator(lex, w) == Ok(Some((field, last))) && IsLast(lex, last)
    requires UnitAfter(lex, rest) == (|rest|, unit) && IsDateUnit(unit) && IsDateValue(lex, last + " " + unit)
    ensures ItemAt(lex, s) == Ok(Parsed(OfFilter(Filter(field, last + " " + unit, false)), |s|))
  {
    assert DateValue(lex, last, rest) == (last + " " + unit, |rest|);
    assert |w| > 0;
    assert ItemAt(lex, s) == BareItem(lex, s, false);
  }

  /** A date operator selects the notes whose date the value covers. */
  lemma {:induction false} DatesSelect(eng: Engine, note: Note, value: string)
    requires value != "" && ',' !in value
    ensures Matches(eng, note, Plan([Filter(Created, value, false)], [], []), NO_CHIPS)
      <==> eng.createdIn(note.created, value)
    ensures Matches(eng, note, Plan([Filter(Modified, value, false)], [], []), NO_CHIPS)
      <==> eng.modifiedIn(note.modifiedAt, value)
  {
    TypedIsValue(eng, note, Created, value);
    TypedIsValue(eng, note, Modified, value);
    SplitWhole(value, ',');
    assert [value][0] == value;
  }

  /** Values with a comma between them are alternatives. */
  lemma {:induction false} CommaIsOr(eng: Engine, note: Note, field: Field, a: string, b: string)
    ensures AnyValue(eng, note, field, a + "," + b) <==> AnyValue(eng, note, field, a) || AnyValue(eng, note, field, b)
  {
    var x, y := Split(a, ','), Split(b, ',');
    SplitAt(a, b, ',');
    assert a + [','] + b == a + "," + b;
    assert forall i :: 0 <= i < |x| ==> (x + y)[i] == x[i];
    forall i | 0 <= i < |y| ensures (x + y)[|x| + i] == y[i] {
    }
    AnyOfBoth(eng, note, field, a, b, a + "," + b, x, y);
  }

  lemma {:induction false} AnyOfBoth(eng: Engine, note: Note, field: Field, a: string, b: string, ab: string,
                                     x: seq<string>, y: seq<string>)
    requires Split(a, ',') == x && Split(b, ',') == y && Split(ab, ',') == x + y
    requires forall i :: 0 <= i < |y| ==> (x + y)[|x| + i] == y[i]
    ensures AnyValue(eng, note, field, ab) <==> AnyValue(eng, note, field, a) || AnyValue(eng, note, field, b)
  {
    if AnyValue(eng, note, field, ab) {
      var i :| 0 <= i < |x + y| && |(x + y)[i]| > 0 &&
        if IsDateField(field) then HasValue(eng, note, field, (x + y)[i])
        else |Trim((x + y)[i], IsBlank)| > 0 && HasValue(eng, note, field, Trim((x + y)[i], IsBlank));
      if i >= |x| {
        assert (x + y)[i] == y[i - |x|];
      } else {
        assert (x + y)[i] == x[i];
      }
    }
    if AnyValue(eng, note, field, a) {
      assert forall i :: 0 <= i < |x| ==> (x + y)[i] == x[i];
    }
  }

  /** Only values that are dates between their commas are dates. */
  lemma {:induction false} CommaDates(lex: Lexicon, a: string, b: string)
    ensures IsDateValue(lex, a + "," + b) <==> IsDateValue(lex, a) && IsDateValue(lex, b)
    ensures ',' !in a ==> (IsDateValue(lex, a) <==> IsDateExpression(lex, a))
  {
    var x, y := Split(a, ','), Split(b, ',');
    SplitAt(a, b, ',');
    assert a + [','] + b == a + "," + b;
    AllOfBoth(lex, x, y);
    if ',' !in a {
      SplitWhole(a, ',');
      assert [a][0] == a;
    }
  }

  lemma {:induction false} AllOfBoth(lex: Lexicon, x: seq<string>, y: seq<string>)
    ensures (forall i :: 0 <= i < |x + y| ==> IsDateExpression(lex, (x + y)[i]))
      <==> (forall i :: 0 <= i < |x| ==> IsDateExpression(lex, x[i]))
           && forall i :: 0 <= i < |y| ==> IsDateExpression(lex, y[i])
  {
    if forall i :: 0 <= i < |x + y| ==> IsDateExpression(lex, (x + y)[i]) {
      forall i | 0 <= i < |x| ensures IsDateExpression(lex, x[i]) {
        assert (x + y)[i] == x[i];
      }
      forall i | 0 <= i < |y| ensures IsDateExpression(lex, y[i]) {
        assert (x + y)[|x| + i] == y[i];
      }
    }
  }

  // ------------------------------------------------------------------- date values

  lemma {:induction false} DotsApart(a: string, b: string)
    requires '.' !in a && '.' !in b
    ensures SplitDots(a) == [a] && SplitDots(a + ".." + b) == [a, b]
  {
    if |a| > 0 {
      assert a[0] in a;
      assert forall c :: c in a[1..] ==> c in a;
      DotsApart(a[1..], b);
      assert (a + ".." + b)[1..] == a[1..] + ".." + b && (a + ".." + b)[0] == a[0];
      assert [a[0]] + a[1..] == a;
    } else {
      NoDots(b);
      var s := a + ".." + b;
      assert s[2..] == b && s[0] == '.' && s[1] == '.';
      assert [""] + [b] == [a, b];
    }
  }

  lemma {:induction false} NoDots(b: string)
    requires '.' !in b
    ensures SplitDots(b) == [b]
  {
    if |b| > 0 {
      assert b[0] in b && forall c :: c in b[1..] ==> c in b;
      NoDots(b[1..]);
      assert [b[0]] + b[1..] == b;
    }
  }

  /** More than two dates in one range are none. */
  lemma {:induction false} ThreeDates(lex: Lexicon, a: string, b: string, c: string)
    requires '.' !in a && '.' !in b && '.' !in c
    requires Trimmed(a + ".." + b + ".." + c, IsBlank) && !IsRelative(Lowered(a + ".." + b + ".." + c, lex.lower))
    ensures !IsDateExpression(lex, a + ".." + b + ".." + c)
  {
    var r := a + ".." + b + ".." + c;
    assert r == a + ".." + (b + ".." + c);
    TrimOfTrimmed(r, IsBlank);
    DotsApart(b, c);
    DotsBehind(a, b + ".." + c);
  }

  lemma {:induction false} DotsBehind(a: string, s: string)
    requires '.' !in a
    ensures SplitDots(a + ".." + s) == [a] + SplitDots(s)
  {
    var t := a + ".." + s;
    if |a| > 0 {
      assert a[0] in a && forall c :: c in a[1..] ==> c in a;
      DotsBehind(a[1..], s);
      assert t[1..] == a[1..] + ".." + s && t[0] == a[0];
      assert ([a[1..]] + SplitDots(s))[1..] == SplitDots(s) && [a[0]] + a[1..] == a;
    } else {
      assert t[2..] == s && t[0] == '.' && t[1] == '.';
    }
  }

  /** A date stands for itself, and two dates with two dots between them for a range;
      both ends have to be dates. */
  lemma {:induction false} DateRanges(lex: Lexicon, a: string, b: string)
    requires '.' !in a && '.' !in b && a != "" && b != "" && Trimmed(a, IsBlank) && Trimmed(b, IsBlank)
    requires !IsRelative(Lowered(a, lex.lower)) && !IsRelative(Lowered(a + ".." + b, lex.lower))
    ensures IsDateExpression(lex, a) <==> lex.isDate(a)
    ensures IsDateExpression(lex, a + ".." + b) <==> lex.isDate(a) && lex.isDate(b)
  {
    var r := a + ".." + b;
    assert r[0] == a[0] && r[|r| - 1] == b[|b| - 1];
    TrimOfTrimmed(r, IsBlank);
    TrimOfTrimmed(a, IsBlank);
    TrimOfTrimmed(b, IsBlank);
    DotsApart(a, b);
    OneDate(lex, a);
    TwoDates(lex, r, a, b);
  }

  lemma {:induction false} OneDate(lex: Lexicon, a: string)
    requires Trim(a, IsBlank) == a && a != "" && SplitDots(a) == [a] && !IsRelative(Lowered(a, lex.lower))
    ensures IsDateExpression(lex, a) <==> lex.isDate(a)
  {
    assert [a][0] == a;
  }

  lemma {:induction false} TwoDates(lex: Lexicon, r: string, a: string, b: string)
    requires Trim(r, IsBlank) == r && SplitDots(r) == [a, b] && !IsRelative(Lowered(r, lex.lower))
    requires Trim(a, IsBlank) == a != "" && Trim(b, IsBlank) == b != ""
    ensures IsDateExpression(lex, r) <==> lex.isDate(a) && lex.isDate(b)
  {
    assert [a, b][0] == a && [a, b][1] == b;
  }

  // ------------------------------------------------------------- words and patterns

  /** A typed word selects the notes in which some word starts with it, a phrase those
      that hold it anywhere, both after folding. */
  lemma {:induction false} TermsSelect(eng: Engine, note: Note, value: string, folded: string)
    requires folded == Lowered(Trim(value, IsWhite), eng.plain) && OneWord(folded)
    ensures MatchesTerm(eng, note, Term(value, false, false)) <==> StartsWord(folded, note.searchText)
    ensures MatchesTerm(eng, note, Term(value, true, false)) <==> Occurs(folded, note.searchText)
  {
    SomeWordIff(note.searchText, folded);
    ContainsIff(note.searchText, folded);
  }

  /** A pattern in which every slash is escaped. */
  predicate Closable(q: string) {
    if |q| == 0 then true
    else if q[0] == '\\' then |q| > 1 && Closable(q[2..])
    else q[0] != '/' && Closable(q[1..])
  }

  lemma {:induction false} ReadsPattern(q: string, value: string)
    requires Closable(q) && |value| + |q| > 0
    ensures Delimited(q + "/", '/', true, false, value) == Closed(value + q, |q| + 1)
  {
    var s := q + "/";
    if |q| == 0 {
      assert s == "/" && value + q == value;
    } else if q[0] == '\\' {
      var pair := ['\\', q[1]];
      assert q == pair + q[2..];
      ReadsPattern(q[2..], value + pair);
      KeptPair(q[1], q[2..] + "/", value);
      assert s == pair + (q[2..] + "/");
      assert value + pair + q[2..] == value + q;
    } else {
      ReadsPattern(q[1..], value + [q[0]]);
      assert s[1..] == q[1..] + "/" && s[0] == q[0];
      assert value + [q[0]] + q[1..] == value + q;
    }
  }

  lemma {:induction false} KeptPair(c: char, rest: string, value: string)
    ensures Delimited(['\\', c] + rest, '/', true, false, value)
      == OneMore(OneMore(Delimited(rest, '/', true, false, value + ['\\', c])))
  {
    var s := ['\\', c] + rest;
    assert value + "\\" + [c] == value + ['\\', c];
    assert s[1..] == [c] + rest && ([c] + rest)[1..] == rest;
  }

  /** A pattern between slashes is taken as it is typed, backslashes included, and
      refused when it does not compile. */
  lemma {:induction false} PatternReads(lex: Lexicon, q: string)
    requires q != "" && Closable(q)
    ensures Parse(lex, "/" + q + "/")
      == if lex.isPattern(q) then Ok(Plan([], [], [Regex(q, false)])) else Err(InvalidRegex(q))
  {
    var s := "/" + q + "/";
    assert s[0] == '/' && s[1..] == q + "/";
    ReadsPattern(q, "");
    assert "" + q == q;
    PatternItem(lex, s, q);
    if lex.isPattern(q) {
      LoneItem(lex, s, Parsed(OfRegex(Regex(q, false)), |s|));
    } else {
      LeadUnique(s, IsWhite, 0);
    }
  }

  /** A pattern selects the notes in whose title and body, with a line break between
      them, the engine finds it, and with a minus the others. */
  lemma {:induction false} PatternSelects(eng: Engine, note: Note, q: string)
    ensures Matches(eng, note, Plan([], [], [Regex(q, false)]), NO_CHIPS)
      <==> eng.finds(q, note.title + "\n" + note.body)
    ensures Matches(eng, note, Plan([], [], [Regex(q, true)]), NO_CHIPS)
      <==> !eng.finds(q, note.title + "\n" + note.body)
  {
    assert [Regex(q, false)][0] in [Regex(q, false)] && [Regex(q, true)][0] in [Regex(q, true)];
  }

  /** A filter with a minus selects the other notes. */
  lemma {:induction false} FilterComplements(eng: Engine, note: Note, field: Field, value: string)
    ensures Matches(eng, note, Plan([Filter(field, value, true)], [], []), NO_CHIPS)
      <==> !Matches(eng, note, Plan([Filter(field, value, false)], [], []), NO_CHIPS)
  {
    var no, yes := Filter(field, value, true), Filter(field, value, false);
    assert [no][0] in [no] && [yes][0] in [yes];
  }

  lemma {:induction false} PatternItem(lex: Lexicon, s: string, q: string)
    requires |s| > 0 && s[0] == '/' && Delimited(s[1..], '/', true, false, "") == Closed(q, |s| - 1)
    ensures ItemAt(lex, s)
      == if lex.isPattern(q) then Ok(Parsed(OfRegex(Regex(q, false)), |s|)) else Err(InvalidRegex(q))
  {
    assert ItemAt(lex, s) == RegexItem(lex, s, false);
  }

  // ------------------------------------------------------------------ what is refused

  lemma {:induction false} Refused(lex: Lexicon, s: string, error: ParseError)
    requires |s| > 0 && !IsWhite(s[0]) && ItemAt(lex, s) == Err(error)
    ensures Parse(lex, s) == Err(error)
  {
    LeadUnique(s, IsWhite, 0);
  }

  lemma {:induction false} NeverClosed(s: string, close: char, keep: bool, value: string)
    requires close !in s && close != '\\'
    ensures Delimited(s, close, keep, false, value) == Unclosed && Delimited(s, close, keep, true, value) == Unclosed
  {
    if |s| > 0 {
      assert s[0] in s && forall c :: c in s[1..] ==> c in s;
      NeverClosed(s[1..], close, keep, value + (if keep then "\\" else "") + [s[0]]);
      NeverClosed(s[1..], close, keep, value + [s[0]]);
      NeverClosed(s[1..], close, keep, value);
    }
  }

  /** Quotes and slashes that hold nothing or are not closed, and a minus without a
      term. */
  lemma {:induction false} DelimitersRefused(lex: Lexicon, s: string)
    ensures Parse(lex, "\"\"") == Err(EmptyPhrase) && Parse(lex, "//") == Err(EmptyRegex)
    ensures '\"' !in s ==> Parse(lex, "\"" + s) == Err(UnterminatedPhrase)
    ensures '/' !in s ==> Parse(lex, "/" + s) == Err(UnterminatedRegex)
    ensures Parse(lex, "-") == Err(NegationWithoutTerm) && Parse(lex, "- " + s) == Err(NegationWithoutTerm)
  {
    EmptyRefused(lex);
    if '\"' !in s {
      NeverClosed(s, '\"', false, "");
      assert ("\"" + s)[1..] == s;
      OpenItem(lex, "\"" + s);
      Refused(lex, "\"" + s, UnterminatedPhrase);
    }
    if '/' !in s {
      NeverClosed(s, '/', true, "");
      assert ("/" + s)[1..] == s;
      OpenItem(lex, "/" + s);
      Refused(lex, "/" + s, UnterminatedRegex);
    }
    assert ("- " + s)[0] == '-' && ("- " + s)[1] == ' ';
    Refused(lex, "-", NegationWithoutTerm);
    Refused(lex, "- " + s, NegationWithoutTerm);
  }

  lemma {:induction false} OpenItem(lex: Lexicon, s: string)
    requires |s| > 0
    ensures s[0] == '\"' && Delimited(s[1..], '\"', false, false, "") == Unclosed ==>
      ItemAt(lex, s) == Err(UnterminatedPhrase)
    ensures s[0] == '/' && Delimited(s[1..], '/', true, false, "") == Unclosed ==>
      ItemAt(lex, s) == Err(UnterminatedRegex)
    ensures s[0] == '\"' && Delimited(s[1..], '\"', false, false, "") == Empty ==> ItemAt(lex, s) == Err(EmptyPhrase)
    ensures s[0] == '/' && Delimited(s[1..], '/', true, false, "") == Empty ==> ItemAt(lex, s) == Err(EmptyRegex)
  {
  }

  /** Text that sticks to the closing quote of a phrase is refused. */
  lemma {:induction false} GluedRefused(lex: Lexicon, phrase: string, c: char, rest: string)
    requires phrase != "" && !IsWhite(c)
    ensures Parse(lex, "\"" + Escaped(phrase) + "\"" + [c] + rest) == Err(ExpectedTerm)
  {
    var inside, behind := Escaped(phrase) + "\"", [c] + rest;
    var s := "\"" + Escaped(phrase) + "\"" + [c] + rest;
    assert s[0] == '\"' && s[1..] == inside + behind;
    ReadsEscaped(phrase, "");
    assert "" + phrase == phrase;
    DelimitedExtends(inside, behind, '\"', false, false, "");
    GluedItem(lex, s, phrase, |inside| + 1);
    assert s[|inside| + 1] == c;
    LeadUnique(s, IsWhite, 0);
    ParseStep(lex, s, s, Parsed(OfTerm(Term(phrase, true, false)), |inside| + 1));
  }

  lemma {:induction false} GluedItem(lex: Lexicon, s: string, phrase: string, n: nat)
    requires |s| > 0 && s[0] == '\"' && n > 0 && Delimited(s[1..], '\"', false, false, "") == Closed(phrase, n - 1)
    ensures ItemAt(lex, s) == Ok(Parsed(OfTerm(Term(phrase, true, false)), n))
  {
    assert ItemAt(lex, s) == QuotedItem(s, false);
  }

  lemma {:induction false} EmptyRefused(lex: Lexicon)
    ensures Parse(lex, "\"\"") == Err(EmptyPhrase) && Parse(lex, "//") == Err(EmptyRegex)
  {
    assert "\"\""[1..] == "\"" && "//"[1..] == "/";
    assert Delimited("\"", '\"', false, false, "") == Empty && Delimited("/", '/', true, false, "") == Empty;
    OpenItem(lex, "\"\"");
    OpenItem(lex, "//");
    Refused(lex, "\"\"", EmptyPhrase);
    Refused(lex, "//", EmptyRegex);
  }

  /** A letter, and then letters, digits, underscores and dashes. */
  ghost predicate Identifier(lex: Lexicon, s: string) {
    exists c, rest :: s == [c] + rest && lex.isLetter(c)
      && forall d :: d in rest ==> d in "_-" || lex.isLetter(d) || lex.isNumber(d)
  }

  lemma {:induction false} IdentifierIff(lex: Lexicon, s: string)
    ensures IsIdentifier(lex, s) <==> Identifier(lex, s)
  {
    if IsIdentifier(lex, s) {
      assert s == [s[0]] + s[1..];
    }
    if Identifier(lex, s) {
      var c, rest :| s == [c] + rest && lex.isLetter(c)
        && forall d :: d in rest ==> d in "_-" || lex.isLetter(d) || lex.isNumber(d);
      forall i | 1 <= i < |s| ensures lex.isLetter(s[i]) || lex.isNumber(s[i]) || s[i] == '_' || s[i] == '-' {
        assert s[i] == rest[i - 1] && rest[i - 1] in rest;
      }
    }
  }

  /** A colon behind something that is no operator: an identifier is taken for a
      mistyped operator and refused, anything else is an ordinary word; a colon with
      nothing behind it is refused. */
  lemma {:induction false} ColonWords(lex: Lexicon, name: string, value: string)
    requires name != "" && ':' !in name && forall i :: 0 <= i < |name| ==> !IsWhite(name[i])
    requires name[0] != '-' && name[0] != '\"' && name[0] != '/'
    requires forall i :: 0 <= i < |value| ==> !IsWhite(value[i])
    requires FieldNamed(Lowered(name, lex.lower)) == None
    ensures Parse(lex, name + ":" + value)
      == if value == "" then Err(OperatorRequiresValue(name + ":"))
         else if Identifier(lex, name) then Err(UnknownOperator(name + ":"))
         else Ok(Plan([], [Term(name + ":" + value, false, false)], []))
  {
    var s := name + ":" + value;
    IdentifierIff(lex, name);
    ColonParts(name, value, s);
    ColonItem(lex, s, name, value);
    if value == "" || IsIdentifier(lex, name) {
      Refused(lex, s, ItemAt(lex, s).error);
    } else {
      LoneItem(lex, s, Parsed(OfTerm(Term(s, false, false)), |s|));
    }
  }

  lemma {:induction false} ColonParts(name: string, value: string, s: string)
    requires s == name + ":" + value && name != "" && ':' !in name
    requires forall i :: 0 <= i < |name| ==> !IsWhite(name[i])
    requires forall i :: 0 <= i < |value| ==> !IsWhite(value[i])
    ensures Word(s) == s && Lead(s, NotColon) == |name| < |s| && s[..|name|] == name && s[|name| + 1..] == value
    ensures s[0] == name[0]
  {
    forall i | 0 <= i < |s| ensures NotWhite(s[i]) {
      if i > |name| {
        assert s[i] == value[i - |name| - 1];
      }
    }
    LeadUnique(s, NotWhite, |s|);
    assert s[..|s|] == s && s[..|name|] == name && s[|name|] == ':';
    LeadUnique(s, NotColon, |name|);
  }

  lemma {:induction false} ColonItem(lex: Lexicon, s: string, name: string, value: string)
    requires |s| > 0 && Word(s) == s && Lead(s, NotColon) == |name| < |s| && s[..|name|] == name
    requires s[|name| + 1..] == value && FieldNamed(Lowered(name, lex.lower)) == None
    requires s[0] != '-' && s[0] != '\"' && s[0] != '/'
    ensures ItemAt(lex, s)
      == if value == "" then Err(OperatorRequiresValue(name + ":"))
         else if IsIdentifier(lex, name) then Err(UnknownOperator(name + ":"))
         else Ok(Parsed(OfTerm(Term(s, false, false)), |s|))
  {
    assert ItemAt(lex, s) == BareItem(lex, s, false);
  }

  // ------------------------------------------------------------------------- chips

  /** One more tag chip keeps the notes that also have that tag. */
  lemma {:induction false} TagChipsNarrow(eng: Engine, note: Note, ui: Chips, tag: string)
    ensures MatchesChips(eng, note, ui.(tags := ui.tags + [tag]))
      <==> MatchesChips(eng, note, ui)
           && exists i :: 0 <= i < |note.tags| && Lowered(note.tags[i], eng.lower) == Lowered(tag, eng.lower)
  {
    var more := ui.tags + [tag];
    assert forall i :: 0 <= i < |ui.tags| ==> more[i] == ui.tags[i];
    assert more[|ui.tags|] == tag;
  }

  /** Several correspondents or types are alternatives. */
  lemma {:induction false} ChipsAreAlternatives(eng: Engine, note: Note, ui: Chips, first: string, more: seq<string>)
    requires more != []
    ensures MatchesChips(eng, note, ui.(correspondents := [first] + more))
      <==> MatchesChips(eng, note, ui.(correspondents := [first]))
           || MatchesChips(eng, note, ui.(correspondents := more))
    ensures MatchesChips(eng, note, ui.(documentTypes := [first] + more))
      <==> MatchesChips(eng, note, ui.(documentTypes := [first])) || MatchesChips(eng, note, ui.(documentTypes := more))
  {
    AnyOfCons(eng, first, more, note.correspondent);
    AnyOfCons(eng, first, more, note.documentType);
  }

  lemma {:induction false} AnyOfCons(eng: Engine, first: string, more: seq<string>, x: string)
    ensures var all := [first] + more;
      (exists i :: 0 <= i < |all| && SameIgnoringCase(eng, all[i], x))
      <==> (exists i :: 0 <= i < |[first]| && SameIgnoringCase(eng, [first][i], x))
           || exists i :: 0 <= i < |more| && SameIgnoringCase(eng, more[i], x)
  {
    var all := [first] + more;
    assert all[0] == first && [first][0] == first;
    forall i | 0 <= i < |more| ensures all[i + 1] == more[i] {
    }
    if exists i :: 0 <= i < |all| && SameIgnoringCase(eng, all[i], x) {
      var i :| 0 <= i < |all| && SameIgnoringCase(eng, all[i], x);
      if i > 0 {
        assert more[i - 1] == all[i];
      }
    }
  }

  /** A single chip, and a date range, on a note; a note is dated by its document, or
      else by its creation, and only the day counts. */
  lemma {:induction false} LoneChips(eng: Engine, note: Note, x: string, from: string, to: string)
    ensures MatchesChips(eng, note, NO_CHIPS)
    ensures MatchesChips(eng, note, NO_CHIPS.(correspondents := [x]))
      <==> Lowered(note.correspondent, eng.lower) == Lowered(x, eng.lower)
    ensures MatchesChips(eng, note, NO_CHIPS.(documentTypes := [x]))
      <==> Lowered(note.documentType, eng.lower) == Lowered(x, eng.lower)
    ensures var date := if note.documentDate == "" then note.created else note.documentDate;
      var day := date[..if |date| < 10 then |date| else 10];
      MatchesChips(eng, note, NO_CHIPS.(dateRange := Some((from, to)))) <==> !Less(day, from) && !Less(to, day)
  {
    assert [x][0] == x;
    ChipsAreValues(eng, note, x);
  }

  /** Every note is shown by exactly one of the two kind chips: with the notes when it
      has none of what makes a document, and else with the documents. */
  lemma {:induction false} NoteOrDocument(eng: Engine, note: Note)
    ensures var plain := note.documentType == note.status == note.dueDate == ""
                         && note.confidence <= 0 && note.attachments == [];
      && (MatchesChips(eng, note, NO_CHIPS.(notesOnly := true)) <==> plain)
      && (MatchesChips(eng, note, NO_CHIPS.(documentsOnly := true)) <==> !plain)
  {
  }
}
