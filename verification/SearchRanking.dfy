/** Which documents a query matches, how they are scored, and how the results are
    ordered and cut. */
module SearchRanking {
  import opened SearchDocuments

  const TITLE_WEIGHT := 6.0
  const TAG_WEIGHT := 4.0
  const FRONTMATTER_WEIGHT := 3.0
  const BODY_WEIGHT := 1.0
  const PREFIX_FACTOR := 0.6
  const FULL_MATCH_BONUS := 1.5

  datatype Hit = Hit(path: string, score: real)

  // ---------------------------------------------------------------- matching

  /** Some indexed token of the document starts with the query token. */
  predicate HasPrefix(doc: Document, token: string) {
    exists t :: t in Tokens(doc) && token <= t
  }

  predicate Matches(doc: Document, tokens: seq<string>) {
    forall token :: token in tokens ==> HasPrefix(doc, token)
  }

  /** The brute-force scan. */
  function Matching(docs: map<string, Document>, tokens: seq<string>): set<string> {
    set p | p in docs && Matches(docs[p], tokens)
  }

  // ----------------------------------------------------------------- scoring

  predicate ContainsExact(doc: Document, token: string) {
    token in doc.title || token in doc.tags || token in doc.frontmatter || token in doc.body
  }

  function BestFieldWeight(doc: Document, token: string): (w: real)
    ensures BODY_WEIGHT <= w <= TITLE_WEIGHT
  {
    if token in doc.title then TITLE_WEIGHT
    else if token in doc.tags then TAG_WEIGHT
    else if token in doc.frontmatter then FRONTMATTER_WEIGHT
    else BODY_WEIGHT
  }

  function TokenScore(doc: Document, token: string): real {
    BestFieldWeight(doc, token) * if ContainsExact(doc, token) then 1.0 else PREFIX_FACTOR
  }

  function BaseScore(doc: Document, tokens: seq<string>): real {
    if |tokens| == 0 then 0.0
    else BaseScore(doc, tokens[..|tokens| - 1]) + TokenScore(doc, tokens[|tokens| - 1])
  }

  function Score(doc: Document, tokens: seq<string>, recency: real -> real): real {
    BaseScore(doc, tokens) * (if |tokens| > 1 then FULL_MATCH_BONUS else 1.0) + recency(doc.modifiedAt)
  }

  /** What is known of the recency decay: it stays between 0 and 1.5. */
  ghost predicate Decays(recency: real -> real) {
    forall date :: 0.0 <= recency(date) <= 1.5
  }

  ghost predicate AllInTitle(doc: Document, tokens: seq<string>) {
    forall token :: token in tokens ==> token in doc.title
  }

  lemma {:induction false} TitleScore(doc: Document, tokens: seq<string>)
    requires AllInTitle(doc, tokens)
    ensures BaseScore(doc, tokens) == TITLE_WEIGHT * (|tokens| as real)
  {
    if |tokens| > 0 {
      assert tokens[|tokens| - 1] in tokens;
      TitleScore(doc, tokens[..|tokens| - 1]);
    }
  }

  /** A token that is not an exact title hit is worth at most 4 of the 6 points. */
  lemma {:induction false} OtherScore(doc: Document, tokens: seq<string>)
    ensures BaseScore(doc, tokens) <= TITLE_WEIGHT * (|tokens| as real)
    ensures !AllInTitle(doc, tokens) ==> BaseScore(doc, tokens) <= TITLE_WEIGHT * (|tokens| as real) - 2.0
  {
    if |tokens| > 0 {
      var init, last := tokens[..|tokens| - 1], tokens[|tokens| - 1];
      OtherScore(doc, init);
      assert tokens == init + [last];
      assert last !in doc.title ==> TokenScore(doc, last) <= TAG_WEIGHT;
      assert TokenScore(doc, last) <= TITLE_WEIGHT;
    }
  }

  /** Exact title hits for every token beat any other document, whatever the age
      of the two, for any number of tokens. */
  lemma {:induction false} TitleWins(a: Document, b: Document, tokens: seq<string>, recency: real -> real)
    requires |tokens| > 0 && AllInTitle(a, tokens) && !AllInTitle(b, tokens) && Decays(recency)
    ensures Score(a, tokens, recency) > Score(b, tokens, recency)
  {
    TitleScore(a, tokens);
    OtherScore(b, tokens);
    var bonus := if |tokens| > 1 then FULL_MATCH_BONUS else 1.0;
    assert BaseScore(a, tokens) * bonus >= (BaseScore(b, tokens) + 2.0) * bonus;
    assert (BaseScore(b, tokens) + 2.0) * bonus == BaseScore(b, tokens) * bonus + 2.0 * bonus;
    assert 0.0 <= recency(a.modifiedAt) && recency(b.modifiedAt) <= 1.5;
  }

  // ----------------------------------------------------------------- ordering

  /** By score, and between equal scores by date, both descending. */
  predicate Better(docs: map<string, Document>, a: Hit, b: Hit)
    requires a.path in docs && b.path in docs
  {
    if a.score != b.score then a.score > b.score else docs[a.path].modifiedAt > docs[b.path].modifiedAt
  }

  ghost predicate Scored(docs: map<string, Document>, tokens: seq<string>, recency: real -> real, h: Hit) {
    h.path in docs && h.score == Score(docs[h.path], tokens, recency)
  }

  ghost predicate Ordered(docs: map<string, Document>, hits: seq<Hit>) {
    && (forall i :: 0 <= i < |hits| ==> hits[i].path in docs)
    && forall i, j :: 0 <= i < j < |hits| ==> hits[i].path != hits[j].path && !Better(docs, hits[j], hits[i])
  }

  ghost predicate Lists(hits: seq<Hit>, paths: set<string>) {
    && (forall i :: 0 <= i < |hits| ==> hits[i].path in paths)
    && forall p :: p in paths ==> exists i :: 0 <= i < |hits| && hits[i].path == p
  }

  /** The documents that a query is answered from; a query without tokens has none. */
  function Candidates(docs: map<string, Document>, tokens: seq<string>): set<string> {
    if |tokens| == 0 then {} else Matching(docs, tokens)
  }

  ghost predicate Shows(hits: seq<Hit>, path: string) {
    exists i :: 0 <= i < |hits| && hits[i].path == path
  }

  /** The answer to a query: matching documents, each once and with its score, best
      first; as many as match, up to the limit; and nothing that is not shown is
      better than a hit. */
  ghost predicate Answer(docs: map<string, Document>, tokens: seq<string>, limit: nat, recency: real -> real,
                         hits: seq<Hit>) {
    && Ordered(docs, hits)
    && (forall i :: 0 <= i < |hits| ==>
      hits[i].path in Candidates(docs, tokens) && Scored(docs, tokens, recency, hits[i]))
    && |hits| == (if limit < |Candidates(docs, tokens)| then limit else |Candidates(docs, tokens)|)
    && forall p, i :: p in docs && p in Candidates(docs, tokens) && !Shows(hits, p) && 0 <= i < |hits| ==>
      !Better(docs, Hit(p, Score(docs[p], tokens, recency)), hits[i])
  }

  lemma {:induction false} ListedOnce(hits: seq<Hit>, paths: set<string>)
    requires Lists(hits, paths) && forall i, j :: 0 <= i < j < |hits| ==> hits[i].path != hits[j].path
    ensures |hits| == |paths|
  {
    if |hits| == 0 {
      assert paths == {};
    } else {
      var init, last := hits[..|hits| - 1], hits[|hits| - 1];
      forall p | p in paths - {last.path} ensures exists i :: 0 <= i < |init| && init[i].path == p {
        var i :| 0 <= i < |hits| && hits[i].path == p;
        assert init[i].path == p;
      }
      ListedOnce(init, paths - {last.path});
    }
  }

  lemma {:induction false} ShownBelow(all: seq<Hit>, n: nat, k: nat)
    requires n <= |all| && k < |all|
    ensures k < n ==> Shows(all[..n], all[k].path)
  {
    if k < n {
      assert all[..n][k] == all[k];
    }
  }

  /** Cutting the full ordered list of matches to the limit gives the answer. */
  lemma {:induction false} CutIsAnswer(docs: map<string, Document>, tokens: seq<string>, limit: nat,
                                       recency: real -> real, all: seq<Hit>)
    requires Ordered(docs, all) && Lists(all, Candidates(docs, tokens))
    requires forall i :: 0 <= i < |all| ==> Scored(docs, tokens, recency, all[i])
    ensures Answer(docs, tokens, limit, recency, all[..if limit < |all| then limit else |all|])
  {
    var hits := all[..if limit < |all| then limit else |all|];
    ListedOnce(all, Candidates(docs, tokens));
    forall p, i | p in docs && p in Candidates(docs, tokens) && !Shows(hits, p) && 0 <= i < |hits|
      ensures !Better(docs, Hit(p, Score(docs[p], tokens, recency)), hits[i])
    {
      var k :| 0 <= k < |all| && all[k].path == p;
      assert Scored(docs, tokens, recency, all[k]);
      ShownBelow(all, |hits|, k);
      assert hits[i] == all[i];
    }
  }

  /** In an answer, a document with every token in its title stands before every
      document without; if one of those is shown, so is it. */
  lemma {:induction false} TitleFirst(docs: map<string, Document>, tokens: seq<string>, limit: nat,
                                      recency: real -> real, hits: seq<Hit>, p: string, k: nat)
    requires Answer(docs, tokens, limit, recency, hits) && Decays(recency)
    requires p in docs && AllInTitle(docs[p], tokens)
    requires k < |hits| && !AllInTitle(docs[hits[k].path], tokens)
    ensures exists i :: 0 <= i < k && hits[i].path == p
  {
    TitleMatches(docs[p], tokens);
    assert Scored(docs, tokens, recency, hits[k]);
    TitleWins(docs[p], docs[hits[k].path], tokens, recency);
    var best := Hit(p, Score(docs[p], tokens, recency));
    assert Better(docs, best, hits[k]);
    assert Shows(hits, p);
    var i :| 0 <= i < |hits| && hits[i].path == p;
    assert Scored(docs, tokens, recency, hits[i]) && hits[i] == best;
    assert i < k;
  }

  lemma {:induction false} TitleMatches(doc: Document, tokens: seq<string>)
    requires AllInTitle(doc, tokens)
    ensures Matches(doc, tokens)
  {
    forall token | token in tokens ensures HasPrefix(doc, token) {
      assert token in Tokens(doc) && token <= token;
    }
  }

  // ------------------------------------------------------------------ sorting

  lemma {:induction false} NotBetterTransitive(docs: map<string, Document>, a: Hit, b: Hit, c: Hit)
    requires a.path in docs && b.path in docs && c.path in docs
    requires !Better(docs, b, a) && !Better(docs, c, b)
    ensures !Better(docs, c, a)
  {
  }

  /** Sorting results: one more hit at its place. */
  method Place(docs: map<string, Document>, sorted: seq<Hit>, h: Hit) returns (r: seq<Hit>)
    requires Ordered(docs, sorted) && h.path in docs && forall i :: 0 <= i < |sorted| ==> sorted[i].path != h.path
    ensures Ordered(docs, r)
    ensures forall x :: x in r <==> x in sorted || x == h
  {
    var i := 0;
    while i < |sorted| && !Better(docs, h, sorted[i])
      invariant i <= |sorted| && forall j :: 0 <= j < i ==> !Better(docs, h, sorted[j])
    {
      i := i + 1;
    }
    r := sorted[..i] + [h] + sorted[i..];
    forall j | i <= j < |sorted| ensures !Better(docs, sorted[j], h) {
      if i < j {
        NotBetterTransitive(docs, h, sorted[i], sorted[j]);
      }
    }
    PlacedOrdered(docs, sorted, h, i);
  }

  lemma {:induction false} PlacedOrdered(docs: map<string, Document>, sorted: seq<Hit>, h: Hit, i: nat)
    requires Ordered(docs, sorted) && h.path in docs && i <= |sorted|
    requires forall j :: 0 <= j < |sorted| ==> sorted[j].path != h.path
    requires forall j :: 0 <= j < i ==> !Better(docs, h, sorted[j])
    requires forall j :: i <= j < |sorted| ==> !Better(docs, sorted[j], h)
    ensures var r := sorted[..i] + [h] + sorted[i..]; Ordered(docs, r) && forall x :: x in r <==> x in sorted || x == h
  {
    var r := sorted[..i] + [h] + sorted[i..];
    forall k | 0 <= k < |r| ensures r[k] == (if k < i then sorted[k] else if k == i then h else sorted[k - 1]) {
    }
    forall k, l | 0 <= k < l < |r| ensures r[k].path != r[l].path && !Better(docs, r[l], r[k]) {
      assert r[k] == if k < i then sorted[k] else if k == i then h else sorted[k - 1];
      assert r[l] == if l < i then sorted[l] else if l == i then h else sorted[l - 1];
    }
    assert sorted == sorted[..i] + sorted[i..];
  }
}
