/** What a token is, what finds a note, and what a hit is worth, in terms of the
    text of notes and queries and in plain numbers. */
module SearchMeanings {
  import opened Text
  import opened SearchDocuments
  import opened SearchRanking

  // ------------------------------------------------------------------- tokens

  /** `w` stands in `s` between two characters that are no word characters, or at an
      end of `s`. */
  ghost predicate RunAt(a: string, w: string, b: string, isWord: char -> bool) {
    && w != "" && Only(w, isWord)
    && (a == "" || !isWord(a[|a| - 1]))
    && (b == "" || !isWord(b[0]))
  }

  /** A token: at least two word characters, and as many as there are. */
  ghost predicate IsToken(w: string, s: string, isWord: char -> bool) {
    |w| >= 2 && exists a, b :: s == a + w + b && RunAt(a, w, b, isWord)
  }

  lemma {:induction false} Joints(s: string, a: string, w: string, b: string)
    requires s == a + w + b
    ensures a != "" ==> s[|a| - 1] == a[|a| - 1]
    ensures b != "" ==> s[|a| + |w|] == b[0]
    ensures forall n :: |a| <= n < |a| + |w| ==> s[n] == w[n - |a|]
  {
  }

  lemma {:induction false} WholeRun(s: string, w: string, isWord: char -> bool)
    requires Only(s, isWord)
    ensures IsToken(w, s, isWord) <==> w == s && |s| >= 2
  {
    if w == s && |s| >= 2 {
      assert s == "" + w + "" && RunAt("", w, "", isWord);
    }
    forall a, b | s == a + w + b && RunAt(a, w, b, isWord) ensures w == s {
      Joints(s, a, w, b);
      assert a == "" && b == "";
    }
  }

  lemma {:induction false} RunLeft(a: string, w: string, b: string, s: string, c: char, t: string,
                                   isWord: char -> bool)
    requires s == a + w + b && RunAt(a, w, b, isWord) && !isWord(c) && |w| >= 2
    ensures IsToken(w, s + [c] + t, isWord)
  {
    var more := b + [c] + t;
    assert s + [c] + t == a + w + more;
    assert more[0] == if b == "" then c else b[0];
    assert RunAt(a, w, more, isWord);
  }

  lemma {:induction false} RunRight(a: string, w: string, b: string, s: string, c: char, t: string,
                                    isWord: char -> bool)
    requires t == a + w + b && RunAt(a, w, b, isWord) && !isWord(c) && |w| >= 2
    ensures IsToken(w, s + [c] + t, isWord)
  {
    var more := s + [c] + a;
    assert s + [c] + t == more + w + b;
    assert more[|more| - 1] == if a == "" then c else a[|a| - 1];
    assert RunAt(more, w, b, isWord);
  }

  lemma {:induction false} RunOnOneSide(a: string, w: string, b: string, s: string, c: char, t: string,
                                        isWord: char -> bool)
    requires s + [c] + t == a + w + b && RunAt(a, w, b, isWord) && !isWord(c) && |w| >= 2
    ensures IsToken(w, s, isWord) || IsToken(w, t, isWord)
  {
    var whole, n := s + [c] + t, |s|;
    Joints(whole, a, w, b);
    assert whole[n] == c;
    if n < |a| {
      var left := a[n + 1..];
      assert whole[n + 1..] == t && (a + w + b)[n + 1..] == left + w + b;
      assert RunAt(left, w, b, isWord);
    } else {
      var right := b[..n - |a| - |w|];
      assert whole[..n] == s && (a + w + b)[..n] == a + w + right;
      assert RunAt(a, w, right, isWord);
    }
  }

  /** The tokens of two texts around a separator are those of one and the other. */
  lemma {:induction false} TokensApart(s: string, c: char, t: string, w: string, isWord: char -> bool)
    requires !isWord(c)
    ensures IsToken(w, s + [c] + t, isWord) <==> IsToken(w, s, isWord) || IsToken(w, t, isWord)
  {
    forall a, b | s + [c] + t == a + w + b && RunAt(a, w, b, isWord) && |w| >= 2
      ensures IsToken(w, s, isWord) || IsToken(w, t, isWord)
    {
      RunOnOneSide(a, w, b, s, c, t, isWord);
    }
    forall a, b | s == a + w + b && RunAt(a, w, b, isWord) && |w| >= 2 ensures IsToken(w, s + [c] + t, isWord) {
      RunLeft(a, w, b, s, c, t, isWord);
    }
    forall a, b | t == a + w + b && RunAt(a, w, b, isWord) && |w| >= 2 ensures IsToken(w, s + [c] + t, isWord) {
      RunRight(a, w, b, s, c, t, isWord);
    }
  }

  /** Cutting a text into words finds exactly its tokens. */
  lemma {:induction false} WordsAreTokens(s: string, w: string, isWord: char -> bool)
    ensures w in Words(s, isWord) <==> IsToken(w, s, isWord)
  {
    assert "" + s == s;
    WordsFromTokens(s, w, isWord, "");
  }

  lemma {:induction false} WordsFromTokens(s: string, w: string, isWord: char -> bool, current: string)
    requires Only(current, isWord)
    ensures w in WordsFrom(s, isWord, current) <==> IsToken(w, current + s, isWord)
  {
    if |s| == 0 {
      assert current + s == current;
      WholeRun(current, w, isWord);
    } else if isWord(s[0]) {
      assert current + [s[0]] + s[1..] == current + s;
      WordsFromTokens(s[1..], w, isWord, current + [s[0]]);
    } else {
      assert current + [s[0]] + s[1..] == current + s && "" + s[1..] == s[1..];
      WordsFromTokens(s[1..], w, isWord, "");
      TokensApart(current, s[0], s[1..], w, isWord);
      WholeRun(current, w, isWord);
    }
  }

  /** A text without a separator is one word if it has two characters, and else none. */
  lemma {:induction false} LoneWord(s: string, isWord: char -> bool)
    requires Only(s, isWord)
    ensures Words(s, isWord) == if |s| >= 2 then [s] else []
  {
    WordsOfRun(s, isWord, "");
    assert "" + s == s;
  }

  // ------------------------------------------------------------------- finding

  /** The texts of a note that are indexed. */
  function Texts(note: Note): seq<string> {
    [note.title, Join(note.tags, ' '), Join(note.frontmatter, ' '), note.body]
  }

  lemma {:induction false} IndexFields(an: Analyzer, note: Note, w: string)
    ensures var doc := Index(an, note);
      && (w in doc.title <==> IsToken(w, an.fold(note.title), an.isWord))
      && (w in doc.tags <==> IsToken(w, an.fold(Join(note.tags, ' ')), an.isWord))
      && (w in doc.frontmatter <==> IsToken(w, an.fold(Join(note.frontmatter, ' ')), an.isWord))
      && (w in doc.body <==> IsToken(w, an.fold(note.body), an.isWord))
      && doc.path == note.path && doc.modifiedAt == note.modifiedAt
  {
    WordsAreTokens(an.fold(note.title), w, an.isWord);
    WordsAreTokens(an.fold(Join(note.tags, ' ')), w, an.isWord);
    WordsAreTokens(an.fold(Join(note.frontmatter, ' ')), w, an.isWord);
    WordsAreTokens(an.fold(note.body), w, an.isWord);
  }

  /** Some token of the note starts with `w`. */
  ghost predicate StartsToken(an: Analyzer, note: Note, w: string) {
    exists rest, k :: 0 <= k < 4 && IsToken(w + rest, an.fold(Texts(note)[k]), an.isWord)
  }

  lemma {:induction false} PrefixIff(an: Analyzer, note: Note, w: string)
    ensures HasPrefix(Index(an, note), w) <==> StartsToken(an, note, w)
  {
    var doc := Index(an, note);
    if HasPrefix(doc, w) {
      var t :| t in Tokens(doc) && w <= t;
      IndexFields(an, note, t);
      assert w + t[|w|..] == t;
      var k := if t in doc.title then 0 else if t in doc.tags then 1 else if t in doc.frontmatter then 2 else 3;
      assert IsToken(w + t[|w|..], an.fold(Texts(note)[k]), an.isWord);
    }
    forall rest, k | 0 <= k < 4 && IsToken(w + rest, an.fold(Texts(note)[k]), an.isWord) ensures HasPrefix(doc, w) {
      IndexFields(an, note, w + rest);
      assert w + rest in Tokens(doc) && w <= w + rest;
    }
  }

  /** A note is found exactly when every token of the query starts a token of its
      title, tags, frontmatter or body, after folding. */
  lemma {:induction false} FoundIff(an: Analyzer, note: Note, query: string)
    ensures Matches(Index(an, note), Words(an.fold(query), an.isWord))
      <==> forall w :: IsToken(w, an.fold(query), an.isWord) ==> StartsToken(an, note, w)
  {
    forall w ensures w in Words(an.fold(query), an.isWord) <==> IsToken(w, an.fold(query), an.isWord) {
      WordsAreTokens(an.fold(query), w, an.isWord);
    }
    forall w ensures HasPrefix(Index(an, note), w) <==> StartsToken(an, note, w) {
      PrefixIff(an, note, w);
    }
  }

  // ------------------------------------------------------------------- merging

  /** The fraction is dropped: `k` is the whole number of seconds towards 1970. */
  predicate WholeSecond(x: real, k: int) {
    if k > 0 then k as real <= x < (k + 1) as real
    else if k < 0 then (k - 1) as real < x <= k as real
    else -1.0 < x < 1.0
  }

  ghost predicate SameSecond(x: real, y: real) {
    exists k :: WholeSecond(x, k) && WholeSecond(y, k)
  }

  lemma {:induction false} TruncatedIs(x: real, k: int)
    ensures WholeSecond(x, k) <==> Truncated(x) == k
  {
  }

  lemma {:induction false} SameSecondIff(x: real, y: real)
    ensures SameSecond(x, y) <==> Truncated(x) == Truncated(y)
  {
    TruncatedIs(x, Truncated(x));
    TruncatedIs(y, Truncated(x));
    forall k ensures (WholeSecond(x, k) <==> Truncated(x) == k) && (WholeSecond(y, k) <==> Truncated(y) == k) {
      TruncatedIs(x, k);
      TruncatedIs(y, k);
    }
  }

  /** A merge keeps the entry of a note that has the same size and whole second as
      when it was indexed, and makes a new one otherwise. */
  lemma {:induction false} KeptIff(an: Analyzer, prior: map<string, Document>, note: Note, made: Note)
    requires note.path in prior ==> prior[note.path] == Index(an, made)
    ensures Entry(an, prior, note)
      == if note.path in prior && made.fileSize == note.fileSize && SameSecond(made.modifiedAt, note.modifiedAt)
         then Index(an, made) else Index(an, note)
  {
    SameSecondIff(made.modifiedAt, note.modifiedAt);
  }

  // ------------------------------------------------------------------- scoring

  /** What one token is worth: 6 points in the title, 4 in a tag, 3 in the
      frontmatter, 1 in the body, and 0.6 if only a longer token starts with it. */
  lemma {:induction false} OneTokenScore(doc: Document, token: string, recency: real -> real)
    ensures var worth := Score(doc, [token], recency) - recency(doc.modifiedAt);
      && (token in doc.title ==> worth == 6.0)
      && (token in doc.tags && token !in doc.title ==> worth == 4.0)
      && (token in doc.frontmatter && token !in doc.title + doc.tags ==> worth == 3.0)
      && (token in doc.body && token !in doc.title + doc.tags + doc.frontmatter ==> worth == 1.0)
      && (token !in doc.title + doc.tags + doc.frontmatter + doc.body ==> worth == 0.6)
  {
    assert [token][..0] == [];
    assert BaseScore(doc, [token]) == BaseScore(doc, []) + TokenScore(doc, token);
  }

  /** Every further token adds its worth, and with the second one all of them count
      half as much again; the bonus for a recent date is added once. */
  lemma {:induction false} MoreTokensScore(doc: Document, tokens: seq<string>, token: string, recency: real -> real)
    requires tokens != []
    ensures var recent := recency(doc.modifiedAt);
      Score(doc, tokens + [token], recency) - recent
        == (if |tokens| == 1 then 1.5 else 1.0) * (Score(doc, tokens, recency) - recent)
           + 1.5 * (Score(doc, [token], recency) - recent)
  {
    var all := tokens + [token];
    assert all[..|tokens|] == tokens && [token][..0] == [];
    assert BaseScore(doc, all) == BaseScore(doc, tokens) + TokenScore(doc, token);
    assert BaseScore(doc, [token]) == BaseScore(doc, []) + TokenScore(doc, token);
  }

  /** The hits come with falling scores, and with falling dates between equal scores;
      when all of them fit, they are exactly the documents that match. */
  lemma {:induction false} BestFirst(docs: map<string, Document>, tokens: seq<string>, limit: nat,
                                     recency: real -> real, hits: seq<Hit>)
    requires Answer(docs, tokens, limit, recency, hits)
    ensures forall i, j :: 0 <= i < j < |hits| ==>
      && hits[i].path in docs && hits[j].path in docs && hits[i].score >= hits[j].score
      && (hits[i].score == hits[j].score ==> docs[hits[i].path].modifiedAt >= docs[hits[j].path].modifiedAt)
    ensures forall i :: 0 <= i < |hits| ==> tokens != [] && hits[i].path in docs && Matches(docs[hits[i].path], tokens)
    ensures |docs| <= limit ==> forall p :: Shows(hits, p) <==> tokens != [] && p in docs && Matches(docs[p], tokens)
  {
    if |docs| <= limit {
      var all := Candidates(docs, tokens);
      SubsetSize(all, docs.Keys);
      var shown := set i | 0 <= i < |hits| :: hits[i].path;
      ShownSize(hits);
      SubsetEqual(shown, all);
      forall p ensures Shows(hits, p) <==> p in all {
        assert p in shown <==> Shows(hits, p);
      }
    }
  }

  lemma {:induction false} SubsetSize<T>(a: set<T>, b: set<T>)
    requires a <= b
    ensures |a| <= |b|
  {
    assert b == a + (b - a);
  }

  lemma {:induction false} SubsetEqual<T>(a: set<T>, b: set<T>)
    requires a <= b && |a| == |b|
    ensures a == b
  {
    assert b == a + (b - a);
  }

  lemma {:induction false} ShownSize(hits: seq<Hit>)
    requires forall i, j :: 0 <= i < j < |hits| ==> hits[i].path != hits[j].path
    ensures |set i | 0 <= i < |hits| :: hits[i].path| == |hits|
  {
    if |hits| > 0 {
      var init, last := hits[..|hits| - 1], hits[|hits| - 1];
      ShownSize(init);
      var shown := set i | 0 <= i < |init| :: init[i].path;
      assert last.path !in shown;
      assert (set i | 0 <= i < |hits| :: hits[i].path) == shown + {last.path};
    }
  }
}
