/** Queries as a writer types them, and the plans they parse to. */
module QueryShapes {
  import opened Text
  import opened QueryParser

  /** A phrase with its quotes and backslashes escaped. */
  function Escaped(s: string): string {
    if |s| == 0 then ""
    else (if s[0] == '\\' || s[0] == '\"' then ['\\', s[0]] else [s[0]]) + Escaped(s[1..])
  }

  lemma {:induction false} ReadsEscaped(s: string, value: string)
    requires |value| + |s| > 0
    ensures Delimited(Escaped(s) + "\"", '\"', false, false, value) == Closed(value + s, |Escaped(s)| + 1)
  {
    if |s| == 0 {
      assert Escaped(s) + "\"" == "\"" && value + s == value;
    } else {
      ReadsEscaped(s[1..], value + [s[0]]);
      assert value + [s[0]] + s[1..] == value + s;
      if s[0] == '\\' || s[0] == '\"' {
        ReadsPair(s[0], Escaped(s[1..]) + "\"", value);
        assert Escaped(s) + "\"" == ['\\', s[0]] + (Escaped(s[1..]) + "\"");
      } else {
        ReadsOne(s[0], Escaped(s[1..]) + "\"", value);
        assert Escaped(s) + "\"" == [s[0]] + (Escaped(s[1..]) + "\"");
      }
    }
  }

  lemma {:induction false} ReadsOne(c: char, rest: string, value: string)
    requires c != '\\' && c != '\"'
    ensures Delimited([c] + rest, '\"', false, false, value)
      == OneMore(Delimited(rest, '\"', false, false, value + [c]))
  {
    assert ([c] + rest)[1..] == rest;
  }

  lemma {:induction false} ReadsPair(c: char, rest: string, value: string)
    ensures Delimited(['\\', c] + rest, '\"', false, false, value)
      == OneMore(OneMore(Delimited(rest, '\"', false, false, value + [c])))
  {
    var s := ['\\', c] + rest;
    assert s[1..] == [c] + rest && ([c] + rest)[1..] == rest;
    assert value + "" + [c] == value + [c];
  }

  /** The plan of a query that is one entry. */
  lemma {:induction false} LoneItem(lex: Lexicon, s: string, p: Parsed)
    requires |s| > 0 && !IsWhite(s[0]) && ItemAt(lex, s) == Ok(p) && p.used == |s|
    ensures Parse(lex, s) == Ok(PlanOf(p.item))
  {
    LeadUnique(s, IsWhite, 0);
    ParseStep(lex, s, s, p);
    assert s[|s|..] == "" && SkipSpace("") == "";
    BothEmpty(PlanOf(p.item), Ok(EMPTY));
  }

  lemma {:induction false} QuotedRead(lex: Lexicon, s: string, phrase: string)
    requires |s| > 0 && s[0] == '\"' && Delimited(s[1..], '\"', false, false, "") == Closed(phrase, |s| - 1)
    ensures !IsWhite(s[0]) && ItemAt(lex, s) == Ok(Parsed(OfTerm(Term(phrase, true, false)), |s|))
  {
    assert ItemAt(lex, s) == QuotedItem(s, false);
  }

  /** Every phrase but the empty one can be asked for: quoted with escapes, it
      parses to itself. */
  lemma {:induction false} PhraseReads(lex: Lexicon, phrase: string)
    requires phrase != ""
    ensures Parse(lex, "\"" + Escaped(phrase) + "\"") == Ok(Plan([], [Term(phrase, true, false)], []))
  {
    var s := "\"" + Escaped(phrase) + "\"";
    assert s[0] == '\"' && s[1..] == Escaped(phrase) + "\"";
    ReadsEscaped(phrase, "");
    assert "" + phrase == phrase;
    QuotedRead(lex, s, phrase);
    LoneItem(lex, s, Parsed(OfTerm(Term(phrase, true, false)), |s|));
  }

  function Negated(item: Item, negated: bool): Item {
    match item
    case OfFilter(f) => OfFilter(f.(negated := negated))
    case OfTerm(t) => OfTerm(t.(negated := negated))
    case OfRegex(r) => OfRegex(r.(negated := negated))
  }

  lemma {:induction false} PlainNegated(lex: Lexicon, s: string)
    requires |s| > 0
    ensures var p, n := PlainItem(lex, s, false), PlainItem(lex, s, true);
      && (p.Ok? <==> n.Ok?)
      && (p.Ok? ==> n.value == Parsed(Negated(p.value.item, true), p.value.used))
      && (p.Err? ==> n == p)
  {
  }

  /** A minus in front of one entry negates that entry and changes nothing else;
      a second minus is part of the word. */
  lemma {:induction false} MinusNegates(lex: Lexicon, s: string)
    requires |s| > 0 && !IsWhite(s[0]) && s[0] != '-'
    ensures var p, n := ItemAt(lex, s), ItemAt(lex, "-" + s);
      && (p.Ok? <==> n.Ok?)
      && (p.Ok? ==> n.value == Parsed(Negated(p.value.item, true), p.value.used + 1))
      && (p.Err? ==> n == p)
  {
    assert ("-" + s)[1..] == s && ("-" + s)[1] == s[0];
    PlainNegated(lex, s);
  }

  /** A word without a colon that starts like one is a term of its own. */
  lemma {:induction false} WordReads(lex: Lexicon, word: string)
    requires word != "" && ':' !in word && forall i :: 0 <= i < |word| ==> !IsWhite(word[i])
    requires word[0] != '-' && word[0] != '\"' && word[0] != '/'
    ensures Parse(lex, word) == Ok(Plan([], [Term(word, false, false)], []))
  {
    LeadUnique(word, NotWhite, |word|);
    LeadUnique(word, NotColon, |word|);
    assert Word(word) == word && Operator(lex, word) == Ok(None);
    LoneItem(lex, word, Parsed(OfTerm(Term(word, false, false)), |word|));
  }
}
