/** Lists in the frontmatter: both ways of writing them, and what is read back. */
module FrontmatterLists {
  import opened Text
  import opened Frontmatter

  // ------------------------------------------------------------- inline lists

  /** The scalars among comma-separated pieces; blank pieces are skipped. */
  function Scalars(pieces: seq<string>): seq<string> {
    if |pieces| == 0 then []
    else
      var first := if |pieces[0]| == 0 then None else Scalar(pieces[0]);
      (if first.Some? then [first.value] else []) + Scalars(pieces[1..])
  }

  /** `inlineList`: `[a, b, c]`, or nothing. */
  function InlineList(raw: string): seq<string> {
    var t := Trim(raw, IsWhite);
    if |t| >= 2 && t[0] == '[' && t[|t| - 1] == ']' then Scalars(Split(t[1..|t| - 1], ',')) else []
  }

  /** The tags of a note: a list of lines, or else an inline list. */
  function TagsOf(source: string): seq<string> {
    var p := SplitSource(source);
    if "tags" in p.lists then p.lists["tags"]
    else if "tags" in p.values then InlineList(p.values["tags"])
    else []
  }

  /** An item that is written without quotes: trimmed, not empty, not itself in
      quotes. */
  ghost predicate Plain(item: string) {
    item != "" && Trimmed(item, IsWhite) && !Quotes(item, '\"') && !Quotes(item, '\'')
  }

  lemma {:induction false} PlainScalar(item: string)
    requires Plain(item)
    ensures Scalar(item) == Some(item) && Scalar(" " + item) == Some(item)
  {
    TrimOfTrimmed(item, IsWhite);
    assert " " + item + "" == " " + item;
    TrimCore(" ", item, "", IsWhite);
  }

  /** The pieces of an inline list, with a space behind every comma. */
  function Spaced(items: seq<string>): seq<string> {
    seq(|items|, i requires 0 <= i < |items| => if i == 0 then items[0] else " " + items[i])
  }

  lemma {:induction false} ScalarsOf(pieces: seq<string>, items: seq<string>)
    requires |pieces| == |items|
    requires forall i :: 0 <= i < |items| ==> |pieces[i]| > 0 && Scalar(pieces[i]) == Some(items[i])
    ensures Scalars(pieces) == items
  {
    if |items| > 0 {
      ScalarsOf(pieces[1..], items[1..]);
      assert items == [items[0]] + items[1..];
    }
  }

  /** An inline list of plain items is read back item by item. */
  lemma {:induction false} InlineListReads(items: seq<string>)
    requires |items| > 0 && forall i :: 0 <= i < |items| ==> Plain(items[i]) && ',' !in items[i]
    ensures InlineList("[" + Join(Spaced(items), ',') + "]") == items
  {
    var pieces := Spaced(items);
    var raw := "[" + Join(pieces, ',') + "]";
    assert raw[0] == '[' && raw[|raw| - 1] == ']' && raw[1..|raw| - 1] == Join(pieces, ',');
    TrimOfTrimmed(raw, IsWhite);
    forall i | 0 <= i < |items| ensures ',' !in pieces[i] && |pieces[i]| > 0 && Scalar(pieces[i]) == Some(items[i]) {
      PlainScalar(items[i]);
    }
    SplitJoin(pieces, ',');
    ScalarsOf(pieces, items);
  }

  // ------------------------------------------------------------- lists of lines

  function ItemLines(items: seq<string>): (r: seq<string>)
    ensures |r| == |items| && forall i :: 0 <= i < |r| ==> r[i] == "- " + items[i]
  {
    seq(|items|, i requires 0 <= i < |items| => "- " + items[i])
  }

  /** A line with one item adds that item to the open list. */
  lemma {:induction false} ItemStep(f: Fields, item: string)
    requires f.active.Some? && Plain(item)
    ensures Step(f, "- " + item) == f.(lists := Appended(f.lists, f.active.value, item))
  {
    var line := "- " + item;
    assert line[0] == '-' && line[|line| - 1] == item[|item| - 1];
    TrimOfTrimmed(line, IsBlank);
    assert line[2..] == item;
    PlainScalar(item);
  }

  /** A key without a value opens a list. */
  lemma {:induction false} OpenStep(f: Fields, key: string)
    requires f.active.None? && key != "" && forall i :: 0 <= i < |key| ==> 'a' <= key[i] <= 'z'
    ensures Step(f, key + ":") == Fields(f.values[key := ""], f.lists, Some(key))
  {
    var line := key + ":";
    assert line[0] == key[0] && line[|line| - 1] == ':';
    TrimOfTrimmed(line, IsBlank);
    assert line[..|key|] == key && line[|key|] == ':' && line[|key| + 1..] == "";
    LeadUnique(line, NotColon, |key|);
    assert !IsBlank(key[0]) && !IsBlank(key[|key| - 1]);
    TrimOfTrimmed(key, IsBlank);
    TrimAll("", IsBlank);
  }

  /** The fields with more items under a key. */
  function WithItems(f: Fields, key: string, items: seq<string>): Fields {
    if |items| == 0 then f
    else f.(lists := f.lists[key := (if key in f.lists then f.lists[key] else []) + items])
  }

  lemma {:induction false} WithOneMore(f: Fields, key: string, init: seq<string>, last: string)
    requires f.active == Some(key) && Plain(last)
    ensures Step(WithItems(f, key, init), "- " + last) == WithItems(f, key, init + [last])
  {
    ItemStep(WithItems(f, key, init), last);
    var held := if key in f.lists then f.lists[key] else [];
    Assoc(held, init, [last]);
    if |init| == 0 {
      assert init + [last] == [last];
    } else {
      assert f.lists[key := held + init][key := held + (init + [last])] == f.lists[key := held + (init + [last])];
    }
  }

  lemma {:induction false} ItemLinesNext(before: seq<string>, init: seq<string>, last: string)
    ensures before + ItemLines(init + [last]) == before + ItemLines(init) + ["- " + last]
  {
    assert ItemLines(init + [last]) == ItemLines(init) + ["- " + last];
  }

  /** A list written line by line is read back in order, behind what the key
      already held. */
  lemma {:induction false} ListReads(before: seq<string>, key: string, items: seq<string>)
    requires FieldsOf(before).active == Some(key)
    requires forall i :: 0 <= i < |items| ==> Plain(items[i])
    ensures FieldsOf(before + ItemLines(items)) == WithItems(FieldsOf(before), key, items)
  {
    if |items| == 0 {
      assert before + ItemLines(items) == before;
    } else {
      var n := |items| - 1;
      var init, last := items[..n], items[n];
      assert items == init + [last];
      ListReads(before, key, init);
      ItemLinesNext(before, init, last);
      FieldsNext(before + ItemLines(init), "- " + last);
      WithOneMore(FieldsOf(before), key, init, last);
    }
  }

  lemma {:induction false} OpenKey(key: string)
    requires key != "" && forall i :: 0 <= i < |key| ==> 'a' <= key[i] <= 'z'
    ensures FieldsOf([key + ":"]) == Fields(map[key := ""], map[], Some(key))
  {
    OpenStep(NO_FIELDS, key);
    FieldsNext([], key + ":");
    assert [] + [key + ":"] == [key + ":"];
  }

  /** A key and its items, as a writer types them. */
  lemma {:induction false} TypedList(key: string, items: seq<string>)
    requires key != "" && (forall i :: 0 <= i < |key| ==> 'a' <= key[i] <= 'z') && |items| > 0
    requires forall i :: 0 <= i < |items| ==> Plain(items[i])
    ensures FieldsOf([key + ":"] + ItemLines(items)).lists == map[key := items]
  {
    OpenKey(key);
    ListReads([key + ":"], key, items);
    assert [] + items == items;
  }

}
