/** The two backends a queued write can be applied to, and the naming of the
    sibling files in which the loser of a conflict is kept. Reading the live
    file, checking the precondition and writing are one step here. */
module WriteAdapters {
  import opened Text
  import opened Outbox

  // --------------------------------------------------------- conflict naming

  const CONFLICTED_COPY := " conflicted copy"

  /** Position just after the last occurrence of `c`, or 0. */
  function AfterLast(s: string, c: char): (i: nat)
    ensures i <= |s| && c !in s[i..] && (i > 0 ==> s[i - 1] == c)
  {
    if s == "" then 0
    else if s[|s| - 1] == c then |s|
    else
      var i := AfterLast(s[..|s| - 1], c);
      assert s[i..] == s[..|s| - 1][i..] + [s[|s| - 1]];
      i
  }

  lemma {:induction false} AfterLastUnique(s: string, c: char, i: nat)
    requires i <= |s| && c !in s[i..] && (i > 0 ==> s[i - 1] == c)
    ensures AfterLast(s, c) == i
  {
    if i < |s| {
      assert s[|s| - 1] in s[i..];
      assert s[..|s| - 1][i..] == s[i..][..|s| - 1 - i];
      AfterLastUnique(s[..|s| - 1], c, i);
    }
  }

  function DirectoryOf(path: string): string {
    path[..AfterLast(path, '/')]
  }

  function NameOf(path: string): string {
    path[AfterLast(path, '/')..]
  }

  /** Whether Foundation's `pathExtension` of this file name is not empty: a dot
      that is neither the first nor the last character, no space after it, and
      no leading "..". */
  predicate HasExtension(name: string) {
    var d := AfterLast(name, '.');
    1 < d < |name| && ' ' !in name[d..] && !(".." <= name)
  }

  function ConflictName(name: string): string {
    if HasExtension(name) then
      var d := AfterLast(name, '.');
      name[..d - 1] + CONFLICTED_COPY + "." + name[d..]
    else name + CONFLICTED_COPY
  }

  /** `conflictFilename`: the sibling next to the target. */
  function ConflictFilename(path: string): string {
    DirectoryOf(path) + ConflictName(NameOf(path))
  }

  function TrimSuffix(s: string, suffix: string): string {
    if |suffix| <= |s| && s[|s| - |suffix|..] == suffix then s[..|s| - |suffix|] else s
  }

  /** The file that the desktop's `conflict resolve` restores. Its `Ext` is
      everything from the last dot of the name, wherever that dot is. */
  function DeriveOriginalName(base: string): string {
    var d := AfterLast(base, '.');
    var stem := if d == 0 then base else base[..d - 1];
    var ext := base[|stem|..];
    var name := if HasSuffix(stem, CONFLICTED_COPY) then TrimSuffix(stem, CONFLICTED_COPY)
                else TrimSuffix(stem, " 2");
    name + ext
  }

  function DeriveOriginalPath(conflictPath: string): string {
    DirectoryOf(conflictPath) + DeriveOriginalName(NameOf(conflictPath))
  }

  lemma {:induction false} NameParts(directory: string, name: string)
    requires '/' !in name && (directory == "" || directory[|directory| - 1] == '/')
    ensures DirectoryOf(directory + name) == directory && NameOf(directory + name) == name
  {
    assert (directory + name)[|directory|..] == name;
    AfterLastUnique(directory + name, '/', |directory|);
  }

  lemma {:induction false} SiblingParts(path: string)
    ensures DirectoryOf(ConflictFilename(path)) == DirectoryOf(path)
    ensures NameOf(ConflictFilename(path)) == ConflictName(NameOf(path))
  {
    var name := NameOf(path);
    assert '/' !in CONFLICTED_COPY;
    NameParts(DirectoryOf(path), ConflictName(name));
  }

  /** A sibling lives in the target's directory and is never the target. */
  lemma {:induction false} SiblingBesideTarget(path: string)
    ensures DirectoryOf(ConflictFilename(path)) == DirectoryOf(path)
    ensures ConflictFilename(path) != path
  {
    SiblingParts(path);
    assert |ConflictFilename(path)| == |path| + |CONFLICTED_COPY|;
  }

  lemma {:induction false} RestoredName(name: string)
    ensures DeriveOriginalName(ConflictName(name)) == name <==> '.' !in name || HasExtension(name)
  {
    assert name[0..] == name;
    if HasExtension(name) {
      var d := AfterLast(name, '.');
      RestoredExtension(name, d, name[..d - 1] + CONFLICTED_COPY);
    } else if '.' !in name {
      RestoredPlain(name, name + CONFLICTED_COPY);
    } else {
      var d := AfterLast(name, '.');
      assert (name + CONFLICTED_COPY)[d..] == name[d..] + CONFLICTED_COPY;
      AfterLastUnique(name + CONFLICTED_COPY, '.', d);
      HiddenMarker(name, d);
    }
  }

  lemma {:induction false} RestoredExtension(name: string, d: nat, stem: string)
    requires 1 < d < |name| && name[d - 1] == '.' && '.' !in name[d..] && stem == name[..d - 1] + CONFLICTED_COPY
    ensures DeriveOriginalName(stem + "." + name[d..]) == name
  {
    var sibling := stem + "." + name[d..];
    assert sibling[|stem| + 1..] == name[d..];
    AfterLastUnique(sibling, '.', |stem| + 1);
    assert sibling[..|stem|] == stem && sibling[|stem|..] == "." + name[d..];
    assert TrimSuffix(stem, CONFLICTED_COPY) == name[..d - 1];
    assert name == name[..d - 1] + ("." + name[d..]);
  }

  lemma {:induction false} RestoredPlain(name: string, sibling: string)
    requires '.' !in name && sibling == name + CONFLICTED_COPY
    ensures DeriveOriginalName(sibling) == name
  {
    assert sibling[0..] == sibling;
    AfterLastUnique(sibling, '.', 0);
    assert TrimSuffix(sibling, CONFLICTED_COPY) == name;
    assert name + sibling[|sibling|..] == name;
  }

  /** A marker behind the last dot is part of what the desktop takes for the
      extension, so it is not removed. */
  lemma {:induction false} HiddenMarker(name: string, d: nat)
    requires 0 < d <= |name| && name[d - 1] == '.'
    requires AfterLast(name + CONFLICTED_COPY, '.') == d
    ensures DeriveOriginalName(name + CONFLICTED_COPY) != name
  {
    var sibling := name + CONFLICTED_COPY;
    var stem := sibling[..d - 1];
    var r := DeriveOriginalName(sibling);
    if HasSuffix(stem, CONFLICTED_COPY) {
      var cut := |stem| - |CONFLICTED_COPY|;
      assert r[cut] == sibling[d - 1] == '.';
      assert stem[cut..][0] == ' ' && name[cut] == stem[cut];
    } else {
      assert |r| >= |sibling| - 2;
    }
  }

  lemma {:induction false} SameTail(directory: string, name: string, other: string)
    ensures directory + name == directory + other <==> name == other
  {
    if directory + name == directory + other {
      assert name == (directory + name)[|directory|..] && other == (directory + other)[|directory|..];
    }
  }

  /** A file name in two parts: something before its last dot, and behind it an
      extension that the phone recognises. */
  ghost predicate Splits(name: string, stem: string, ext: string) {
    name == stem + "." + ext && stem != "" && ext != "" && '.' !in ext && ' ' !in ext && !(".." <= name)
  }

  lemma {:induction false} SplitNamed(name: string, stem: string, ext: string)
    requires Splits(name, stem, ext)
    ensures HasExtension(name) && ConflictName(name) == stem + " conflicted copy." + ext
  {
    var d := |stem| + 1;
    assert name[d..] == ext && name[d - 1] == '.' && name[..d - 1] == stem;
    AfterLastUnique(name, '.', d);
    Assoc(stem, CONFLICTED_COPY, ".");
    assert CONFLICTED_COPY + "." == " conflicted copy.";
  }

  lemma {:induction false} SplitOf(name: string)
    requires HasExtension(name)
    ensures exists stem, ext :: Splits(name, stem, ext)
  {
    var d := AfterLast(name, '.');
    assert name == name[..d - 1] + "." + name[d..];
    assert Splits(name, name[..d - 1], name[d..]);
  }

  lemma {:induction false} HasExtensionIff(name: string)
    ensures HasExtension(name) <==> exists stem, ext :: Splits(name, stem, ext)
  {
    if HasExtension(name) {
      SplitOf(name);
    }
    forall stem, ext | Splits(name, stem, ext) ensures HasExtension(name) {
      SplitNamed(name, stem, ext);
    }
  }

  ghost predicate IsDirectory(directory: string) {
    directory == "" || directory[|directory| - 1] == '/'
  }

  /** The sibling of a file with an extension: the marker stands before it. */
  lemma {:induction false} MarkedBeforeExtension(directory: string, stem: string, ext: string)
    requires IsDirectory(directory) && '/' !in stem && '/' !in ext && Splits(stem + "." + ext, stem, ext)
    ensures ConflictFilename(directory + (stem + "." + ext)) == directory + (stem + " conflicted copy." + ext)
  {
    NameParts(directory, stem + "." + ext);
    SplitNamed(stem + "." + ext, stem, ext);
  }

  /** The sibling of any other file: the marker stands at the end. */
  lemma {:induction false} MarkedAtEnd(directory: string, name: string)
    requires IsDirectory(directory) && '/' !in name && forall stem, ext :: !Splits(name, stem, ext)
    ensures ConflictFilename(directory + name) == directory + (name + " conflicted copy")
  {
    NameParts(directory, name);
    HasExtensionIff(name);
  }

  /** What the desktop takes for the original of a file with an extension: the name
      without the marker, without a trailing number two, or as it is. */
  lemma {:induction false} DerivedNames(stem: string, ext: string)
    requires '.' !in ext
    ensures DeriveOriginalName(stem + " conflicted copy." + ext) == stem + "." + ext
    ensures DeriveOriginalName(stem + " 2." + ext) == stem + "." + ext
    ensures !HasSuffix(stem, " conflicted copy") && !HasSuffix(stem, " 2") ==>
      DeriveOriginalName(stem + "." + ext) == stem + "." + ext
  {
    DerivedMarked(stem, ext);
    DerivedNumbered(stem, ext);
    DerivedStem(stem, ext);
  }

  lemma {:induction false} DerivedMarked(stem: string, ext: string)
    requires '.' !in ext
    ensures DeriveOriginalName(stem + " conflicted copy." + ext) == stem + "." + ext
  {
    MarkerDot(stem, CONFLICTED_COPY, " conflicted copy.", ext);
    DerivedStem(stem + CONFLICTED_COPY, ext);
    WithoutSuffix(stem, CONFLICTED_COPY);
  }

  lemma {:induction false} DerivedNumbered(stem: string, ext: string)
    requires '.' !in ext
    ensures DeriveOriginalName(stem + " 2." + ext) == stem + "." + ext
  {
    MarkerDot(stem, " 2", " 2.", ext);
    DerivedStem(stem + " 2", ext);
    WithoutSuffix(stem, " 2");
    OtherEnd(stem + " 2", CONFLICTED_COPY);
  }

  lemma {:induction false} OtherEnd(s: string, suffix: string)
    requires |s| > 0 && |suffix| > 0 && s[|s| - 1] != suffix[|suffix| - 1]
    ensures !HasSuffix(s, suffix)
  {
  }

  lemma {:induction false} MarkerDot(stem: string, marker: string, dotted: string, ext: string)
    requires dotted == marker + "."
    ensures stem + dotted + ext == stem + marker + "." + ext
  {
  }

  lemma {:induction false} WithoutSuffix(stem: string, suffix: string)
    ensures HasSuffix(stem + suffix, suffix) && TrimSuffix(stem + suffix, suffix) == stem
  {
    assert (stem + suffix)[|stem|..] == suffix;
  }

  lemma {:induction false} DerivedStem(stem: string, ext: string)
    requires '.' !in ext
    ensures DeriveOriginalName(stem + "." + ext)
      == (if HasSuffix(stem, CONFLICTED_COPY) then TrimSuffix(stem, CONFLICTED_COPY) else TrimSuffix(stem, " 2"))
         + "." + ext
  {
    var base := stem + "." + ext;
    assert base[|stem| + 1..] == ext && base[..|stem|] == stem && base[|stem|..] == "." + ext;
    AfterLastUnique(base, '.', |stem| + 1);
    var name := if HasSuffix(stem, CONFLICTED_COPY) then TrimSuffix(stem, CONFLICTED_COPY) else TrimSuffix(stem, " 2");
    Assoc(name, ".", ext);
  }

  /** Resolving a conflict on the desktop addresses the note it came from, exactly
      for the file names without a dot and those whose last dot splits off an
      extension that the phone recognises. */
  lemma {:induction false} ResolveFindsTarget(path: string)
    ensures DeriveOriginalPath(ConflictFilename(path)) == path
      <==> '.' !in NameOf(path) || exists stem, ext :: Splits(NameOf(path), stem, ext)
  {
    SiblingParts(path);
    RestoredName(NameOf(path));
    HasExtensionIff(NameOf(path));
    WholePath(path);
    SameTail(DirectoryOf(path), DeriveOriginalName(ConflictName(NameOf(path))), NameOf(path));
  }

  lemma {:induction false} WholePath(path: string)
    ensures path == DirectoryOf(path) + NameOf(path)
  {
  }

  // ------------------------------------------------------------- the backends

  /** A file with the modification date and the size that a stat reports. */
  datatype File = File(content: string, modifiedAt: Time)

  datatype Key = Key(vault: nat, path: string)

  type Files = map<Key, File>

  datatype Adapter = Server(vault: nat) | Folder(vault: nat)

  datatype ReadFate = Readable | Unreadable(fault: Fault)

  /** A write can also reach the backend without the phone learning of it. */
  datatype WriteFate = Lands | LandsUnseen(fault: Fault) | Lost(fault: Fault)

  datatype Net = Net(read: ReadFate, write: WriteFate)

  datatype Role = Target | Sibling | Original

  /** A write that reached a backend: what it replaced and what it put there. */
  datatype Write = Write(role: Role, adapter: Adapter, key: Key, before: Option<File>, seen: bool,
                         entry: Entry, content: string)

  datatype Applied = Applied(files: Files, error: Option<WriteError>, writes: seq<Write>)

  function Lookup(files: Files, key: Key): Option<File> {
    if key in files then Some(files[key]) else None
  }

  function PutFile(a: Adapter, role: Role, e: Entry, path: string, content: string,
                   files: Files, net: Net, now: Time): Applied
  {
    var key := Key(a.vault, path);
    var w := Write(role, a, key, Lookup(files, key), net.read.Readable?, e, content);
    match net.write
    case Lands => Applied(files[key := File(content, now)], None, [w])
    case LandsUnseen(fault) => Applied(files[key := File(content, now)], Some(Faulted(fault)), [w])
    case Lost(fault) => Applied(files, Some(Faulted(fault)), [])
  }

  function Preserve(a: Adapter, e: Entry, content: string, files: Files, net: Net, now: Time): Applied {
    var path := ConflictFilename(e.path);
    var put := PutFile(a, Sibling, e, path, content, files, net, now);
    if put.error == None then put.(error := Some(Conflict(path))) else put
  }

  /** Server: the hash of the live file against the hash that was queued. */
  predicate HashMatches(live: Option<File>, p: Precondition) {
    (if live.Some? then Some(Sha256(live.value.content)) else None) == p.etag
  }

  /** Files: modification date and size against those that were queued. */
  predicate StatMatches(live: Option<File>, p: Precondition) {
    live.Some? && Some(live.value.modifiedAt) == p.modifiedAt && Some(|live.value.content|) == p.size
  }

  predicate Matches(a: Adapter, live: Option<File>, p: Precondition) {
    if a.Server? then HashMatches(live, p) else StatMatches(live, p)
  }

  /** `applyNote` of both adapters. A file that cannot be read stops the server
      adapter; the files adapter takes it for an absent one. */
  function ApplyNote(a: Adapter, e: Entry, files: Files, net: Net, now: Time): Applied {
    if e.content.None? then Applied(files, Some(Faulted(InvalidContent)), [])
    else if a.Server? && net.read.Unreadable? then Applied(files, Some(Faulted(net.read.fault)), [])
    else
      var live := if net.read.Readable? then Lookup(files, Key(a.vault, e.path)) else None;
      var clear := if e.kind == CreateNote then live.None? else Matches(a, live, e.precondition);
      if clear then PutFile(a, Target, e, e.path, e.content.value, files, net, now)
      else Preserve(a, e, e.content.value, files, net, now)
  }

  const CONSUME_FOLDER := "inbox_watch"

  /** `applyUpload`: the server ingests the bytes under a path of its own
      choosing; in Files mode they are written into the consume folder. */
  function ApplyUpload(a: Adapter, e: Entry, files: Files, net: Net, now: Time): Applied {
    if e.data.None? then Applied(files, Some(Faulted(InvalidContent)), [])
    else
      var filename := if e.filename.Some? then e.filename.value else e.path;
      if a.Folder? then
        var folder := if e.folder.Some? then e.folder.value else CONSUME_FOLDER;
        PutFile(a, Original, e, folder + "/" + filename, e.data.value, files, net, now)
      else
        PutFile(a, Original, e, filename, e.data.value, files, net, now).(files := files)
  }

  function Apply(a: Adapter, e: Entry, files: Files, net: Net, now: Time): Applied {
    if e.kind == UploadOriginal then ApplyUpload(a, e, files, net, now) else ApplyNote(a, e, files, net, now)
  }

  // ------------------------------------------------------ what an apply can do

  /** A note write replaces a file only when the file matches the precondition.
      The exception: the files adapter could not stat the target of a create. */
  ghost predicate Guarded(w: Write) {
    w.role == Target && w.before.Some? ==>
      if w.entry.kind == UpdateNote then Matches(w.adapter, w.before, w.entry.precondition)
      else w.entry.kind == CreateNote && w.adapter.Folder? && !w.seen
  }

  lemma {:induction false} PutGuarded(a: Adapter, role: Role, e: Entry, path: string, content: string,
                                      files: Files, net: Net, now: Time)
    requires role == Target ==>
      var live := if net.read.Readable? then Lookup(files, Key(a.vault, path)) else None;
      && (a.Server? ==> net.read.Readable?)
      && (if e.kind == CreateNote then live.None? else e.kind == UpdateNote && Matches(a, live, e.precondition))
    ensures forall w :: w in PutFile(a, role, e, path, content, files, net, now).writes ==> Guarded(w)
  {
  }

  lemma {:induction false} ApplyGuarded(a: Adapter, e: Entry, files: Files, net: Net, now: Time)
    ensures forall w :: w in Apply(a, e, files, net, now).writes ==> Guarded(w)
  {
    if e.kind == UploadOriginal && e.data.Some? {
      var filename := if e.filename.Some? then e.filename.value else e.path;
      var folder := if e.folder.Some? then e.folder.value else CONSUME_FOLDER;
      PutGuarded(a, Original, e, if a.Folder? then folder + "/" + filename else filename,
                 e.data.value, files, net, now);
    } else if e.kind != UploadOriginal && e.content.Some? && !(a.Server? && net.read.Unreadable?) {
      var live := if net.read.Readable? then Lookup(files, Key(a.vault, e.path)) else None;
      if if e.kind == CreateNote then live.None? else Matches(a, live, e.precondition) {
        PutGuarded(a, Target, e, e.path, e.content.value, files, net, now);
      } else {
        PutGuarded(a, Sibling, e, ConflictFilename(e.path), e.content.value, files, net, now);
      }
    }
  }

  /** The writes of an apply account for every change to the files. */
  ghost predicate Accounts(r: Applied, e: Entry, files: Files, now: Time) {
    && |r.writes| <= 1
    && (forall w :: w in r.writes ==>
          && w.entry == e && w.before == Lookup(files, w.key)
          && Some(w.content) == (if e.kind == UploadOriginal then e.data else e.content))
    && (r.files == files
        || (|r.writes| == 1 && r.files == files[r.writes[0].key := File(r.writes[0].content, now)]))
  }

  lemma {:induction false} PutAccounts(a: Adapter, role: Role, e: Entry, path: string, content: string,
                    files: Files, net: Net, now: Time)
    requires Some(content) == if e.kind == UploadOriginal then e.data else e.content
    ensures Accounts(PutFile(a, role, e, path, content, files, net, now), e, files, now)
  {
  }

  lemma {:induction false} UploadAccounts(a: Adapter, e: Entry, files: Files, net: Net, now: Time)
    requires e.kind == UploadOriginal
    ensures Accounts(ApplyUpload(a, e, files, net, now), e, files, now)
  {
    if e.data.Some? {
      var filename := if e.filename.Some? then e.filename.value else e.path;
      var folder := if e.folder.Some? then e.folder.value else CONSUME_FOLDER;
      PutAccounts(a, Original, e, if a.Folder? then folder + "/" + filename else filename,
                  e.data.value, files, net, now);
    }
  }

  lemma {:induction false} NoteAccounts(a: Adapter, e: Entry, files: Files, net: Net, now: Time)
    requires e.kind != UploadOriginal
    ensures Accounts(ApplyNote(a, e, files, net, now), e, files, now)
  {
    if e.content.Some? {
      PutAccounts(a, Target, e, e.path, e.content.value, files, net, now);
      PutAccounts(a, Sibling, e, ConflictFilename(e.path), e.content.value, files, net, now);
    }
  }

  lemma {:induction false} ApplyAccounts(a: Adapter, e: Entry, files: Files, net: Net, now: Time)
    ensures Accounts(Apply(a, e, files, net, now), e, files, now)
  {
    if e.kind == UploadOriginal {
      UploadAccounts(a, e, files, net, now);
    } else {
      NoteAccounts(a, e, files, net, now);
    }
  }

  lemma {:induction false} PutLands(a: Adapter, role: Role, e: Entry, path: string, other: string, content: string,
                 files: Files, net: Net, now: Time)
    requires path != other && net.write.Lands?
    ensures var r := PutFile(a, role, e, path, content, files, net, now);
      && r.error == None && r.files == files[Key(a.vault, path) := File(content, now)]
      && Lookup(r.files, Key(a.vault, other)) == Lookup(files, Key(a.vault, other))
  {
  }

  lemma {:induction false} ConflictIsPreserve(a: Adapter, e: Entry, files: Files, net: Net, now: Time)
    requires var r := Apply(a, e, files, net, now); r.error.Some? && r.error.value.Conflict?
    ensures e.kind != UploadOriginal && e.content.Some? && net.write.Lands?
    ensures Apply(a, e, files, net, now) == Preserve(a, e, e.content.value, files, net, now)
  {
  }

  /** An apply that ends in a conflict has first put the entry's content at the
      sibling that it reports, and has left every other file alone, the target
      among them. */
  lemma {:induction false} ConflictPreserves(a: Adapter, e: Entry, files: Files, net: Net, now: Time)
    requires var r := Apply(a, e, files, net, now); r.error.Some? && r.error.value.Conflict?
    ensures e.content.Some?
    ensures var r, sibling := Apply(a, e, files, net, now), ConflictFilename(e.path);
      && r.error == Some(Conflict(sibling))
      && r.files == files[Key(a.vault, sibling) := File(e.content.value, now)]
      && Lookup(r.files, Key(a.vault, e.path)) == Lookup(files, Key(a.vault, e.path))
  {
    ConflictIsPreserve(a, e, files, net, now);
    var sibling := ConflictFilename(e.path);
    SiblingBesideTarget(e.path);
    PutLands(a, Sibling, e, sibling, e.path, e.content.value, files, net, now);
  }

  /** An apply without an error has put the entry's content where it belongs. */
  lemma {:induction false} SuccessDelivers(a: Adapter, e: Entry, files: Files, net: Net, now: Time)
    requires Apply(a, e, files, net, now).error == None
    ensures var r := Apply(a, e, files, net, now);
      |r.writes| == 1 && r.writes[0].role == (if e.kind == UploadOriginal then Original else Target)
      && (e.kind != UploadOriginal ==> r.files == files[Key(a.vault, e.path) := File(e.content.value, now)])
  {
  }

  /** Where an upload goes: in Files mode into its folder, or the inbox, under its
      original name; the server takes it without a path of the phone's. */
  lemma {:induction false} UploadLands(a: Adapter, e: Entry, files: Files, net: Net, now: Time)
    requires e.kind == UploadOriginal && e.data.Some? && net.write.Lands?
    ensures var r := Apply(a, e, files, net, now);
      var name := if e.filename.Some? then e.filename.value else e.path;
      var path := (if e.folder.Some? then e.folder.value else "inbox_watch") + "/" + name;
      && r.error == None
      && r.files == (if a.Folder? then files[Key(a.vault, path) := File(e.data.value, now)] else files)
      && |r.writes| == 1 && r.writes[0].content == e.data.value
      && r.writes[0].key == Key(a.vault, if a.Folder? then path else name)
  {
  }

  lemma {:induction false} OneWrite(r: Applied, role: Role)
    requires |r.writes| <= 1
    ensures (exists w :: w in r.writes && w.role == role) <==> |r.writes| == 1 && r.writes[0].role == role
  {
    if |r.writes| == 1 {
      assert r.writes[0] in r.writes;
    }
  }

  lemma {:induction false} PutWrites(a: Adapter, role: Role, e: Entry, path: string, content: string,
                                     files: Files, net: Net, now: Time)
    ensures var r := PutFile(a, role, e, path, content, files, net, now);
      && |r.writes| == (if net.write.Lost? then 0 else 1) && (|r.writes| == 1 ==> r.writes[0].role == role)
  {
  }

  lemma {:induction false} CreateWrites(a: Adapter, e: Entry, files: Files, net: Net, now: Time)
    requires e.kind == CreateNote && e.content.Some? && Key(a.vault, e.path) in files
    ensures var r := Apply(a, e, files, net, now);
      && |r.writes| <= 1
      && (|r.writes| == 1 && r.writes[0].role == Target <==> a.Folder? && net.read.Unreadable? && !net.write.Lost?)
  {
    PutWrites(a, Target, e, e.path, e.content.value, files, net, now);
    PutWrites(a, Sibling, e, ConflictFilename(e.path), e.content.value, files, net, now);
  }

  /** A create replaces a file that is there exactly when the files adapter
      fails to stat it and the write goes through. */
  lemma {:induction false} CreateOverwritesIff(a: Adapter, e: Entry, files: Files, net: Net, now: Time)
    requires e.kind == CreateNote && e.content.Some? && Key(a.vault, e.path) in files
    ensures (exists w :: w in Apply(a, e, files, net, now).writes && w.role == Target)
      <==> a.Folder? && net.read.Unreadable? && !net.write.Lost?
  {
    CreateWrites(a, e, files, net, now);
    OneWrite(Apply(a, e, files, net, now), Target);
  }

  // -------------------------------------------------- where preconditions come from

  /** What the phone knew about the note when the edit was made. */
  datatype Origin = FromServer(seen: string) | FromFolder(stat: Option<File>) | Nowhere

  /** The precondition that `enqueueUpdateNote` captures. */
  function Capture(origin: Origin): Precondition {
    match origin
    case FromServer(seen) => NO_PRECONDITION.(etag := Some(Sha256(seen)))
    case FromFolder(stat) =>
      if stat.Some? then Precondition(None, Some(stat.value.modifiedAt), Some(|stat.value.content|))
      else NO_PRECONDITION
    case Nowhere => NO_PRECONDITION
  }

  /** In its own mode a captured precondition admits a replacement of exactly
      what the phone saw: the same content on a server, the same date and size
      in a folder. In the other mode it admits no replacement at all. */
  lemma {:induction false} CaptureAdmits(a: Adapter, origin: Origin, live: File)
    ensures a.Server? ==>
      (Matches(a, Some(live), Capture(origin)) <==> origin == FromServer(live.content))
    ensures a.Folder? ==>
      (Matches(a, Some(live), Capture(origin)) <==>
        && origin.FromFolder? && origin.stat.Some?
        && origin.stat.value.modifiedAt == live.modifiedAt
        && |origin.stat.value.content| == |live.content|)
  {
  }
}
