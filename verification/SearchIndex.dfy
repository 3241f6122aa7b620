/** The search index: an actor whose inverted map and sorted token list follow its
    documents, and whose search equals a scan of all documents. */
module SearchIndex {
  import opened TokenOrder
  import opened SearchDocuments
  import opened SearchRanking

  /** The inverted map and the token list are those of the documents. */
  ghost predicate Consistent(docs: map<string, Document>, inverted: map<string, set<string>>, sortedTokens: seq<string>)
  {
    && inverted == InvertedOf(docs)
    && Ascending(sortedTokens) && forall t :: t in sortedTokens <==> t in inverted
  }

  /** Two consistent indexes of agreeing documents are the same index. */
  lemma {:induction false} ConsistentUnique(a: map<string, Document>, b: map<string, Document>,
                                            inverted: map<string, set<string>>, other: map<string, set<string>>,
                                            sorted: seq<string>, others: seq<string>)
    requires Agree(a, b) && Consistent(a, inverted, sorted) && Consistent(b, other, others)
    ensures inverted == other && sorted == others
  {
    AgreeInverted(a, b);
    AscendingUnique(sorted, others);
  }

  /** The documents with some token that starts with the prefix. */
  function WithPrefixIn(docs: map<string, Document>, token: string): set<string> {
    set p | p in docs && HasPrefix(docs[p], token)
  }

  lemma {:induction false} MatchingNext(docs: map<string, Document>, tokens: seq<string>, k: nat)
    requires k < |tokens|
    ensures Matching(docs, tokens[..k + 1]) == Matching(docs, tokens[..k]) * WithPrefixIn(docs, tokens[k])
  {
    assert tokens[..k + 1] == tokens[..k] + [tokens[k]];
    forall p | p in docs
      ensures Matches(docs[p], tokens[..k + 1]) <==> Matches(docs[p], tokens[..k]) && HasPrefix(docs[p], tokens[k])
    {
      assert tokens[k] in tokens[..k + 1];
    }
  }

  lemma {:induction false} NoneMatch(docs: map<string, Document>, tokens: seq<string>, k: nat)
    requires k < |tokens| && WithPrefixIn(docs, tokens[k]) == {}
    ensures Matching(docs, tokens) == {}
  {
    forall p | p in docs ensures !Matches(docs[p], tokens) {
      assert p !in WithPrefixIn(docs, tokens[k]) && tokens[k] in tokens;
    }
  }

  /** The ordered, scored hits of the paths handled so far. */
  ghost predicate Collected(docs: map<string, Document>, tokens: seq<string>, recency: real -> real,
                            results: seq<Hit>, done: set<string>) {
    && Ordered(docs, results) && Lists(results, done)
    && forall i :: 0 <= i < |results| ==> Scored(docs, tokens, recency, results[i])
  }

  class MobileSearchIndex {
    var documents: map<string, Document>
    var inverted: map<string, set<string>>
    var sortedTokens: seq<string>
    var file: set<Document>
    const an: Analyzer

    ghost predicate Valid()
      reads this
    {
      Keyed(documents) && Loadable(file) && Consistent(documents, inverted, sortedTokens)
    }

    /** A cold start: the documents of the file, inverted again. */
    constructor (file: set<Document>, an: Analyzer)
      requires Loadable(file)
      ensures Valid() && documents == Loaded(file) && this.file == file && this.an == an
    {
      var docs := Loaded(file);
      var inv := Invert(docs);
      var sorted := Sorted(inv.Keys);
      this.file := file;
      this.an := an;
      documents := docs;
      inverted := inv;
      sortedTokens := sorted;
    }

    method RebuildInverted()
      requires Keyed(documents) && Loadable(file)
      modifies `inverted, `sortedTokens
      ensures Valid()
    {
      inverted := Invert(documents);
      sortedTokens := Sorted(inverted.Keys);
    }

    method Merge(snapshot: seq<Note>, saved: bool)
      requires Valid()
      modifies this
      ensures Valid()
      ensures Store(documents, file)
        == After(an, Store(old(documents), old(file)), SearchDocuments.Event.Merge(snapshot, saved))
    {
      var next: map<string, Document> := map[];
      for i := 0 to |snapshot|
        invariant next == Merged(an, documents, snapshot[..i]) && Keyed(next)
      {
        var note := snapshot[i];
        assert snapshot[..i + 1][..i] == snapshot[..i];
        if note.path in documents && documents[note.path].signature == SignatureOf(note) {
          next := next[note.path := documents[note.path]];
        } else {
          next := next[note.path := Index(an, note)];
        }
      }
      assert snapshot[..|snapshot|] == snapshot;
      documents := next;
      RebuildInverted();
      SaveAndLoad(documents);
      if saved {
        file := documents.Values;
      }
    }

    method RemoveAll(erased: bool)
      requires Valid()
      modifies this
      ensures Valid()
      ensures Store(documents, file)
        == After(an, Store(old(documents), old(file)), SearchDocuments.Event.RemoveAll(erased))
    {
      documents := map[];
      inverted := map[];
      sortedTokens := [];
      if erased {
        file := {};
      }
    }

    /** The union of the inverted entries over the prefix range. */
    method PathsForPrefix(prefix: string) returns (paths: set<string>)
      requires Valid()
      ensures paths == WithPrefixIn(documents, prefix)
    {
      var tokens := WithPrefix(sortedTokens, prefix);
      paths := {};
      for i := 0 to |tokens|
        invariant forall p :: p in paths <==>
          exists j :: 0 <= j < i && tokens[j] in inverted && p in inverted[tokens[j]]
      {
        if tokens[i] in inverted {
          paths := paths + inverted[tokens[i]];
        }
      }
      forall p ensures p in paths <==> p in WithPrefixIn(documents, prefix) {
        if p in WithPrefixIn(documents, prefix) {
          var t :| t in Tokens(documents[p]) && prefix <= t;
          assert t in inverted && t in tokens;
        }
      }
    }

    /** The documents that match every token, and the paths of each token; none
        when some token matches nothing. */
    method MatchAll(tokens: seq<string>) returns (matched: set<string>, perToken: seq<set<string>>)
      requires Valid() && |tokens| > 0
      ensures matched == Matching(documents, tokens)
      ensures matched != {} ==> |perToken| == |tokens|
      ensures |perToken| <= |tokens| && forall i :: 0 <= i < |perToken| ==>
        perToken[i] == WithPrefixIn(documents, tokens[i])
    {
      perToken := [];
      matched := {};
      for i := 0 to |tokens|
        invariant |perToken| == i && forall j :: 0 <= j < i ==> perToken[j] == WithPrefixIn(documents, tokens[j])
        invariant i > 0 ==> matched == Matching(documents, tokens[..i])
      {
        var prefixPaths := PathsForPrefix(tokens[i]);
        if prefixPaths == {} {
          NoneMatch(documents, tokens, i);
          return {}, perToken;
        }
        perToken := perToken + [prefixPaths];
        MatchingNext(documents, tokens, i);
        if i == 0 {
          assert tokens[..0] == [];
          assert Matching(documents, []) * prefixPaths == prefixPaths;
        }
        matched := if i == 0 then prefixPaths else matched * prefixPaths;
      }
      assert tokens[..|tokens|] == tokens;
    }

    /** The score accumulated over the tokens of a matching document. */
    method ScoreOf(path: string, tokens: seq<string>, perToken: seq<set<string>>, recency: real -> real)
      returns (score: real)
      requires path in documents && |perToken| == |tokens|
      requires forall i :: 0 <= i < |tokens| ==> path in perToken[i]
      ensures score == Score(documents[path], tokens, recency)
    {
      var doc := documents[path];
      score := 0.0;
      for i := 0 to |tokens|
        invariant score == BaseScore(doc, tokens[..i])
      {
        assert tokens[..i + 1][..i] == tokens[..i];
        var exact := ContainsExact(doc, tokens[i]);
        var prefix := path in perToken[i];
        if exact || prefix {
          var fieldWeight := BestFieldWeight(doc, tokens[i]);
          var matchFactor := if exact then 1.0 else PREFIX_FACTOR;
          score := score + fieldWeight * matchFactor;
        }
      }
      assert tokens[..|tokens|] == tokens;
      if |tokens| > 1 {
        score := score * FULL_MATCH_BONUS;
      }
      score := score + recency(doc.modifiedAt);
    }

    /** The scored results of the matched paths, in order. */
    method Rank(matched: set<string>, tokens: seq<string>, perToken: seq<set<string>>, recency: real -> real)
      returns (results: seq<Hit>)
      requires matched <= documents.Keys && |perToken| == |tokens|
      requires forall i, p :: 0 <= i < |tokens| && p in matched ==> p in perToken[i]
      ensures Collected(documents, tokens, recency, results, matched)
    {
      results := [];
      var done := {};
      while done != matched
        invariant done <= matched && Collected(documents, tokens, recency, results, done)
        decreases |matched - done|
      {
        var path :| path in matched - done;
        var score := ScoreOf(path, tokens, perToken, recency);
        var h := Hit(path, score);
        var placed := SearchRanking.Place(documents, results, h);
        CollectedNext(documents, tokens, recency, results, placed, h, done);
        results := placed;
        assert matched - (done + {path}) < matched - done;
        done := done + {path};
      }
    }

    /** `search` behind the tokens of the query: the answer of a scan of all documents. */
    method SearchTokens(tokens: seq<string>, limit: nat, recency: real -> real) returns (hits: seq<Hit>)
      requires Valid()
      ensures Answer(documents, tokens, limit, recency, hits)
    {
      if |tokens| == 0 || |documents| == 0 {
        assert Candidates(documents, tokens) == {};
        return [];
      }
      var matched, perToken := MatchAll(tokens);
      if matched == {} {
        return [];
      }
      assert forall i :: 0 <= i < |tokens| ==> tokens[i] in tokens;
      var results := Rank(matched, tokens, perToken, recency);
      CutIsAnswer(documents, tokens, limit, recency, results);
      hits := results[..if limit < |results| then limit else |results|];
    }

    /** `search`: the query is cut into words as the notes are. */
    method Search(query: string, limit: nat, an: Analyzer, recency: real -> real) returns (hits: seq<Hit>)
      requires Valid()
      ensures Answer(documents, Words(an.fold(query), an.isWord), limit, recency, hits)
    {
      var tokens := Tokenize(query, an);
      hits := SearchTokens(tokens, limit, recency);
    }
  }

  lemma {:induction false} CollectedNext(docs: map<string, Document>, tokens: seq<string>, recency: real -> real,
                                         before: seq<Hit>, after: seq<Hit>, h: Hit, done: set<string>)
    requires Collected(docs, tokens, recency, before, done) && Scored(docs, tokens, recency, h)
    requires Ordered(docs, after) && forall x :: x in after <==> x in before || x == h
    ensures Collected(docs, tokens, recency, after, done + {h.path})
  {
    forall i | 0 <= i < |after|
      ensures Scored(docs, tokens, recency, after[i]) && after[i].path in done + {h.path}
    {
      assert after[i] in after;
    }
    forall p | p in done + {h.path} ensures exists i :: 0 <= i < |after| && after[i].path == p {
      if p == h.path {
        assert h in after;
      } else {
        var i :| 0 <= i < |before| && before[i].path == p;
        assert before[i] in after;
      }
    }
  }
}
