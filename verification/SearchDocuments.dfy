/** Indexed documents: tokenizing, incremental merging over whole runs of the
    index, and the inverted map from tokens to paths. */
module SearchDocuments {
  import opened Text

  datatype Note = Note(path: string, title: string, tags: seq<string>, frontmatter: seq<string>, body: string,
                       modifiedAt: real, fileSize: nat)

  /** Case and diacritic folding, and which characters are letters or digits. */
  datatype Analyzer = Analyzer(fold: string -> string, isWord: char -> bool)

  /** Modification time in whole seconds, and size. */
  datatype Signature = Signature(seconds: int, size: nat)

  datatype Document = Document(path: string, signature: Signature, title: seq<string>, tags: seq<string>,
                               frontmatter: seq<string>, body: seq<string>, modifiedAt: real)

  // -------------------------------------------------------------- tokenizing

  function Keep(current: string): seq<string> {
    if |current| >= 2 then [current] else []
  }

  function WordsFrom(s: string, isWord: char -> bool, current: string): seq<string> {
    if |s| == 0 then Keep(current)
    else if isWord(s[0]) then WordsFrom(s[1..], isWord, current + [s[0]])
    else Keep(current) + WordsFrom(s[1..], isWord, "")
  }

  function Words(s: string, isWord: char -> bool): seq<string> {
    WordsFrom(s, isWord, "")
  }

  lemma {:induction false} WordsOfRun(s: string, isWord: char -> bool, current: string)
    requires Only(s, isWord)
    ensures WordsFrom(s, isWord, current) == Keep(current + s)
  {
    if |s| == 0 {
      assert current + s == current;
    } else {
      WordsOfRun(s[1..], isWord, current + [s[0]]);
      assert current + [s[0]] + s[1..] == current + s;
    }
  }

  lemma {:induction false} WordsSplit(a: string, separator: char, b: string, isWord: char -> bool, current: string)
    requires !isWord(separator)
    ensures WordsFrom(a + [separator] + b, isWord, current) == WordsFrom(a, isWord, current) + Words(b, isWord)
  {
    var s := a + [separator] + b;
    if |a| == 0 {
      assert s[0] == separator && s[1..] == b;
    } else {
      assert s[0] == a[0] && s[1..] == a[1..] + [separator] + b;
      if isWord(a[0]) {
        WordsSplit(a[1..], separator, b, isWord, current + [a[0]]);
      } else {
        WordsSplit(a[1..], separator, b, isWord, "");
        Assoc(Keep(current), WordsFrom(a[1..], isWord, ""), Words(b, isWord));
      }
    }
  }

  /** A separator ends a word: the words of two texts put around it are the words
      of one and then those of the other. */
  lemma {:induction false} WordsConcat(a: string, separator: char, b: string, isWord: char -> bool)
    requires !isWord(separator)
    ensures Words(a + [separator] + b, isWord) == Words(a, isWord) + Words(b, isWord)
  {
    WordsSplit(a, separator, b, isWord, "");
  }

  function AllWords(parts: seq<string>, isWord: char -> bool): seq<string> {
    if |parts| == 0 then [] else Words(parts[0], isWord) + AllWords(parts[1..], isWord)
  }

  /** Joining tags or frontmatter fields with spaces never makes one word of two. */
  lemma {:induction false} WordsOfJoined(parts: seq<string>, isWord: char -> bool)
    requires !isWord(' ')
    ensures Words(Join(parts, ' '), isWord) == AllWords(parts, isWord)
  {
    if |parts| == 1 {
      assert AllWords(parts[1..], isWord) == [];
    } else if |parts| > 1 {
      WordsConcat(parts[0], ' ', Join(parts[1..], ' '), isWord);
      WordsOfJoined(parts[1..], isWord);
    }
  }

  /** What a token is: at least two word characters and nothing else. */
  lemma {:induction false} WordsAreWords(s: string, isWord: char -> bool, current: string)
    requires Only(current, isWord)
    ensures forall w :: w in WordsFrom(s, isWord, current) ==> |w| >= 2 && Only(w, isWord)
  {
    if |s| > 0 {
      WordsAreWords(s[1..], isWord, if isWord(s[0]) then current + [s[0]] else "");
    }
  }

  lemma {:induction false} WordsNext(s: string, i: nat, isWord: char -> bool, current: string)
    requires i < |s|
    ensures WordsFrom(s[i..], isWord, current)
      == if isWord(s[i]) then WordsFrom(s[i + 1..], isWord, current + [s[i]])
         else Keep(current) + WordsFrom(s[i + 1..], isWord, "")
  {
    assert s[i..][1..] == s[i + 1..];
  }

  /** The scanning loop of `tokenize`. */
  method Tokenize(text: string, an: Analyzer) returns (tokens: seq<string>)
    ensures tokens == Words(an.fold(text), an.isWord)
  {
    tokens := Scan(an.fold(text), an.isWord);
  }

  method Scan(s: string, isWord: char -> bool) returns (tokens: seq<string>)
    ensures tokens == Words(s, isWord)
  {
    tokens := [];
    var current := "";
    assert s[0..] == s;
    for i := 0 to |s|
      invariant Words(s, isWord) == tokens + WordsFrom(s[i..], isWord, current)
    {
      WordsNext(s, i, isWord, current);
      if isWord(s[i]) {
        current := current + [s[i]];
      } else {
        Assoc(tokens, Keep(current), WordsFrom(s[i + 1..], isWord, ""));
        if |current| > 0 {
          if |current| >= 2 {
            tokens := tokens + [current];
          }
          current := "";
        }
      }
    }
    assert s[|s|..] == "";
    if |current| >= 2 {
      tokens := tokens + [current];
    }
  }

  // ---------------------------------------------------------------- indexing

  /** `Int(_:)` drops the fraction of a number of seconds. */
  function Truncated(x: real): int {
    if x >= 0.0 then x.Floor else -(-x).Floor
  }

  function SignatureOf(note: Note): Signature {
    Signature(Truncated(note.modifiedAt), note.fileSize)
  }

  function Index(an: Analyzer, note: Note): Document {
    Document(note.path, SignatureOf(note),
             Words(an.fold(note.title), an.isWord),
             Words(an.fold(Join(note.tags, ' ')), an.isWord),
             Words(an.fold(Join(note.frontmatter, ' ')), an.isWord),
             Words(an.fold(note.body), an.isWord),
             note.modifiedAt)
  }

  /** `merge`: entries with an unchanged signature are kept, the last note of a
      path wins, and paths that are not in the snapshot are dropped. */
  function Merged(an: Analyzer, prior: map<string, Document>, snapshot: seq<Note>): map<string, Document> {
    if |snapshot| == 0 then map[]
    else
      var note, rest := snapshot[|snapshot| - 1], Merged(an, prior, snapshot[..|snapshot| - 1]);
      rest[note.path := Entry(an, prior, note)]
  }

  function Entry(an: Analyzer, prior: map<string, Document>, note: Note): Document {
    if note.path in prior && prior[note.path].signature == SignatureOf(note) then prior[note.path] else Index(an, note)
  }

  predicate SameText(a: Note, b: Note) {
    a.title == b.title && a.tags == b.tags && a.frontmatter == b.frontmatter && a.body == b.body
  }

  /** Path and signature determine the text of a note. */
  ghost predicate Determined(notes: set<Note>) {
    forall a, b :: a in notes && b in notes && a.path == b.path && SignatureOf(a) == SignatureOf(b) ==> SameText(a, b)
  }

  /** Every entry was made from a note seen under its path. */
  ghost predicate From(an: Analyzer, docs: map<string, Document>, notes: set<Note>) {
    forall p :: p in docs ==> exists n :: n in notes && n.path == p && docs[p] == Index(an, n)
  }

  function NotesOf(snapshot: seq<Note>): set<Note> {
    set n | n in snapshot
  }

  function PathsOf(snapshot: seq<Note>): set<string> {
    set n | n in snapshot :: n.path
  }

  lemma {:induction false} MergedFrom(an: Analyzer, prior: map<string, Document>, snapshot: seq<Note>, notes: set<Note>)
    requires From(an, prior, notes) && forall n :: n in snapshot ==> n in notes
    ensures From(an, Merged(an, prior, snapshot), notes)
  {
    if |snapshot| > 0 {
      var note := snapshot[|snapshot| - 1];
      MergedFrom(an, prior, snapshot[..|snapshot| - 1], notes);
      assert note in snapshot;
      assert Entry(an, prior, note) == Index(an, note)
        || (note.path in prior && Entry(an, prior, note) == prior[note.path]);
    }
  }

  /** Equal in everything that is searched; only the date may differ. */
  predicate SameTokens(a: Document, b: Document) {
    a.(modifiedAt := b.modifiedAt) == b
  }

  ghost predicate Agree(a: map<string, Document>, b: map<string, Document>) {
    a.Keys == b.Keys && forall p :: p in a ==> SameTokens(a[p], b[p])
  }

  lemma {:induction false} EntryAgrees(an: Analyzer, prior: map<string, Document>, note: Note, notes: set<Note>)
    requires From(an, prior, notes) && note in notes && Determined(notes)
    ensures SameTokens(Entry(an, prior, note), Index(an, note))
  {
    if note.path in prior && prior[note.path].signature == SignatureOf(note) {
      var n :| n in notes && n.path == note.path && prior[note.path] == Index(an, n);
      assert SameText(n, note);
    }
  }

  /** A merge leaves what indexing the snapshot from scratch leaves, and exactly
      the paths of the snapshot. */
  lemma {:induction false} MergeAgrees(an: Analyzer, prior: map<string, Document>, snapshot: seq<Note>,
                                       notes: set<Note>)
    requires From(an, prior, notes) && Determined(notes) && forall n :: n in snapshot ==> n in notes
    ensures Agree(Merged(an, prior, snapshot), Merged(an, map[], snapshot))
    ensures Merged(an, prior, snapshot).Keys == PathsOf(snapshot)
  {
    if |snapshot| > 0 {
      var init, note := snapshot[..|snapshot| - 1], snapshot[|snapshot| - 1];
      assert snapshot == init + [note] && note in snapshot;
      MergeAgrees(an, prior, init, notes);
      EntryAgrees(an, prior, note, notes);
      assert PathsOf(snapshot) == PathsOf(init) + {note.path};
    }
  }

  /** From scratch, the entry of a path is that of its last note. */
  lemma {:induction false} ScratchIsLast(an: Analyzer, snapshot: seq<Note>, i: nat)
    requires i < |snapshot| && forall j :: i < j < |snapshot| ==> snapshot[j].path != snapshot[i].path
    ensures var docs := Merged(an, map[], snapshot);
      snapshot[i].path in docs && docs[snapshot[i].path] == Index(an, snapshot[i])
  {
    if i < |snapshot| - 1 {
      ScratchIsLast(an, snapshot[..|snapshot| - 1], i);
    }
  }

  // ------------------------------------------------------------ runs of the index

  /** What happens to the index: a merge that may fail to save, a removal that may
      leave the file, or a restart from the file. */
  datatype Event = Merge(snapshot: seq<Note>, saved: bool) | RemoveAll(erased: bool) | Restart

  /** The documents in memory, and those in the file. */
  datatype Store = Store(docs: map<string, Document>, disk: set<Document>)

  ghost predicate Keyed(docs: map<string, Document>) {
    forall p :: p in docs ==> docs[p].path == p
  }

  ghost predicate Loadable(disk: set<Document>) {
    forall a, b :: a in disk && b in disk && a.path == b.path ==> a == b
  }

  /** Reading the file back; two entries for one path would be fatal. */
  function Loaded(disk: set<Document>): map<string, Document>
    requires Loadable(disk)
  {
    map d | d in disk :: d.path := d
  }

  /** What is written is read back, and never has two entries for one path. */
  lemma {:induction false} SaveAndLoad(docs: map<string, Document>)
    requires Keyed(docs)
    ensures Loadable(docs.Values) && Loaded(docs.Values) == docs
  {
    forall p | p in docs ensures docs[p] in docs.Values {
    }
    assert forall p :: p in docs ==> p in Loaded(docs.Values) && Loaded(docs.Values)[p] == docs[p];
    assert forall p :: p in Loaded(docs.Values) ==> p in docs;
  }

  function After(an: Analyzer, s: Store, e: Event): Store
    requires Loadable(s.disk)
  {
    match e
    case Merge(snapshot, saved) =>
      var docs := Merged(an, s.docs, snapshot);
      Store(docs, if saved then docs.Values else s.disk)
    case RemoveAll(erased) => Store(map[], if erased then {} else s.disk)
    case Restart => Store(Loaded(s.disk), s.disk)
  }

  function SeenIn(e: Event): set<Note> {
    if e.Merge? then NotesOf(e.snapshot) else {}
  }

  function Seen(events: seq<Event>): set<Note> {
    if |events| == 0 then {} else Seen(events[..|events| - 1]) + SeenIn(events[|events| - 1])
  }

  /** Memory and file hold entries of notes seen so far, one per path. */
  ghost predicate Good(an: Analyzer, s: Store, notes: set<Note>) {
    && Loadable(s.disk) && Keyed(s.docs) && From(an, s.docs, notes) && From(an, Loaded(s.disk), notes)
  }

  lemma {:induction false} FromGrows(an: Analyzer, docs: map<string, Document>, notes: set<Note>, more: set<Note>)
    requires From(an, docs, notes) && notes <= more
    ensures From(an, docs, more)
  {
    forall p | p in docs ensures exists n :: n in more && n.path == p && docs[p] == Index(an, n) {
      var n :| n in notes && n.path == p && docs[p] == Index(an, n);
      assert n in more;
    }
  }

  lemma {:induction false} FromKeyed(an: Analyzer, docs: map<string, Document>, notes: set<Note>)
    requires From(an, docs, notes)
    ensures Keyed(docs)
  {
  }

  lemma {:induction false} AfterGood(an: Analyzer, s: Store, e: Event, notes: set<Note>)
    requires Good(an, s, notes)
    ensures Good(an, After(an, s, e), notes + SeenIn(e))
  {
    var more := notes + SeenIn(e);
    FromGrows(an, s.docs, notes, more);
    FromGrows(an, Loaded(s.disk), notes, more);
    match e
    case Merge(snapshot, saved) =>
      MergedFrom(an, s.docs, snapshot, more);
      FromKeyed(an, Merged(an, s.docs, snapshot), more);
      SaveAndLoad(Merged(an, s.docs, snapshot));
    case RemoveAll(erased) =>
    case Restart =>
      FromKeyed(an, Loaded(s.disk), more);
  }

  function RunFrom(an: Analyzer, events: seq<Event>): (s: Store)
    ensures Good(an, s, Seen(events))
  {
    if |events| == 0 then Store(map[], {})
    else
      var before := RunFrom(an, events[..|events| - 1]);
      AfterGood(an, before, events[|events| - 1], Seen(events[..|events| - 1]));
      After(an, before, events[|events| - 1])
  }

  /** After any run of merges, removals, restarts and failed saves, one more merge
      leaves the token fields, the inverted map and the list of tokens that
      indexing the last snapshot from scratch leaves; vanished notes are gone. */
  lemma {:induction false} MergeIsScratch(an: Analyzer, events: seq<Event>, snapshot: seq<Note>, saved: bool)
    requires Determined(Seen(events) + NotesOf(snapshot))
    ensures var docs := After(an, RunFrom(an, events), Merge(snapshot, saved)).docs;
      var scratch := Merged(an, map[], snapshot);
      && Agree(docs, scratch) && docs.Keys == PathsOf(snapshot)
      && InvertedOf(docs) == InvertedOf(scratch)
      && AllTokens(docs) == AllTokens(scratch)
  {
    var notes := Seen(events) + NotesOf(snapshot);
    var prior := RunFrom(an, events).docs;
    FromGrows(an, prior, Seen(events), notes);
    MergeAgrees(an, prior, snapshot, notes);
    AgreeInverted(Merged(an, prior, snapshot), Merged(an, map[], snapshot));
  }

  lemma {:induction false} SameSecond(x: real, y: real)
    requires Truncated(x) == Truncated(y)
    ensures -1.0 < x - y < 1.0 || (-1.0 < x < 1.0 && -1.0 < y < 1.0)
  {
  }

  /** A kept entry may hold an older date, but for one with the same whole second.
      Dropping the fraction rounds towards 1970, so the two are less than a second
      apart, unless one is just before and the other just after it. */
  lemma {:induction false} KeptDate(an: Analyzer, prior: map<string, Document>, note: Note, made: Note)
    requires note.path in prior ==> prior[note.path] == Index(an, made)
    ensures var kept := Entry(an, prior, note).modifiedAt;
      -1.0 < kept - note.modifiedAt < 1.0 || (-1.0 < kept < 1.0 && -1.0 < note.modifiedAt < 1.0)
  {
    SameSecond(Entry(an, prior, note).modifiedAt, note.modifiedAt);
  }

  // ----------------------------------------------------------- the inverted map

  function Tokens(doc: Document): set<string> {
    set t | t in doc.title + doc.tags + doc.frontmatter + doc.body
  }

  function AllTokens(docs: map<string, Document>): set<string> {
    set p, t | p in docs && t in Tokens(docs[p]) :: t
  }

  function PathsWith(docs: map<string, Document>, token: string): set<string> {
    set p | p in docs && token in Tokens(docs[p])
  }

  function InvertedOf(docs: map<string, Document>): map<string, set<string>> {
    map t | t in AllTokens(docs) :: PathsWith(docs, t)
  }

  lemma {:induction false} AgreeInverted(a: map<string, Document>, b: map<string, Document>)
    requires Agree(a, b)
    ensures AllTokens(a) == AllTokens(b) && InvertedOf(a) == InvertedOf(b)
  {
    assert forall p :: p in a ==> Tokens(a[p]) == Tokens(b[p]);
    forall t ensures t in AllTokens(a) <==> t in AllTokens(b) {
    }
    forall t ensures PathsWith(a, t) == PathsWith(b, t) {
    }
  }

  /** The part of the inverted map that comes from some of the documents. */
  ghost predicate InvertsPart(inverted: map<string, set<string>>, docs: map<string, Document>, done: set<string>) {
    && (forall t :: t in inverted <==> exists p :: p in done && p in docs && t in Tokens(docs[p]))
    && forall t, p :: t in inverted ==> (p in inverted[t] <==> p in done && p in docs && t in Tokens(docs[p]))
  }

  /** The rebuilding loop over documents and their tokens. */
  method Invert(docs: map<string, Document>) returns (inverted: map<string, set<string>>)
    ensures inverted == InvertedOf(docs)
  {
    inverted := map[];
    var done := {};
    while done != docs.Keys
      invariant done <= docs.Keys && InvertsPart(inverted, docs, done)
      decreases |docs.Keys - done|
    {
      var path :| path in docs.Keys - done;
      var before := inverted;
      inverted := AddTokens(inverted, Tokens(docs[path]), path);
      InvertsOneMore(before, inverted, docs, done, path);
      assert docs.Keys - (done + {path}) < docs.Keys - done;
      done := done + {path};
    }
    InvertsAll(inverted, docs);
  }

  lemma {:induction false} InvertsAll(inverted: map<string, set<string>>, docs: map<string, Document>)
    requires InvertsPart(inverted, docs, docs.Keys)
    ensures inverted == InvertedOf(docs)
  {
    assert forall t :: t in inverted <==> t in AllTokens(docs);
    forall t | t in inverted ensures inverted[t] == PathsWith(docs, t) {
    }
  }

  lemma {:induction false} InvertsOneMore(before: map<string, set<string>>, after: map<string, set<string>>,
                                          docs: map<string, Document>, done: set<string>, path: string)
    requires InvertsPart(before, docs, done) && path in docs && path !in done
    requires Gained(before, after, Tokens(docs[path]), path)
    ensures InvertsPart(after, docs, done + {path})
  {
  }

  /** Exactly `path` has been added, and exactly under `tokens`. */
  ghost predicate Gained(before: map<string, set<string>>, after: map<string, set<string>>, tokens: set<string>,
                         path: string)
  {
    && after.Keys == before.Keys + tokens
    && forall t :: t in after ==>
      after[t] == (if t in before then before[t] else {}) + if t in tokens then {path} else {}
  }

  method AddOne(ghost before: map<string, set<string>>, inverted: map<string, set<string>>, ghost done: set<string>,
                path: string, t: string) returns (r: map<string, set<string>>)
    requires Gained(before, inverted, done, path) && t !in done
    ensures Gained(before, r, done + {t}, path)
  {
    r := inverted[t := (if t in inverted then inverted[t] else {}) + {path}];
  }

  lemma {:induction false} GainNone(before: map<string, set<string>>, path: string)
    ensures Gained(before, before, {}, path)
  {
  }

  lemma {:induction false} SmallerRest<T>(whole: set<T>, done: set<T>, x: T)
    requires done <= whole && x in whole && x !in done
    ensures done + {x} <= whole && |whole - (done + {x})| < |whole - done|
  {
    assert whole - (done + {x}) < whole - done;
    Subset(whole - (done + {x}), whole - done);
  }

  lemma {:induction false} Subset<T>(a: set<T>, b: set<T>)
    requires a < b
    ensures |a| < |b|
  {
    assert b == a + (b - a);
  }

  method AddTokens(before: map<string, set<string>>, tokens: set<string>, path: string)
    returns (inverted: map<string, set<string>>)
    ensures Gained(before, inverted, tokens, path)
  {
    inverted := before;
    GainNone(before, path);
    var done := {};
    while done != tokens
      invariant done <= tokens && Gained(before, inverted, done, path)
      decreases |tokens - done|
    {
      var t :| t in tokens && t !in done;
      SmallerRest(tokens, done, t);
      inverted := AddOne(before, inverted, done, path, t);
      done := done + {t};
    }
  }
}
