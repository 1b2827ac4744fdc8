/** The frontmatter dictionary of convert_post_to_md and save_as_markdown
    (autoStattic.py:72-83, 126-151): a Python dict, which keeps its keys in insertion order.
    Assigning to a present key replaces its value where it stands; assigning to a new key
    appends it; `update` assigns the other dictionary's items one by one, in its order. */
module Frontmatter {

  import opened Base
  import opened Values

  /** A dictionary's items, in insertion order. */
  type Entries = seq<(string, Value)>

  /** `d[key] = value`: the first entry with that key gets the new value in place, or a new
      entry is appended. */
  function Set(d: Entries, key: string, value: Value): Entries {
    if d == [] then [(key, value)]
    else if d[0].0 == key then [(key, value)] + d[1..]
    else [d[0]] + Set(d[1..], key, value)
  }

  /** Set as a sequence update at the key's first position. */
  lemma {:induction false} SetAt(d: Entries, key: string, value: Value, i: nat)
    requires i < |d| && d[i].0 == key
    requires forall j :: 0 <= j < i ==> d[j].0 != key
    ensures Set(d, key, value) == d[i := (key, value)]
  {
    if i > 0 {
      SetAt(d[1..], key, value, i - 1);
      assert d[i := (key, value)] == [d[0]] + d[1..][i - 1 := (key, value)];
    }
  }

  /** Set as an append when the key is new. */
  lemma {:induction false} SetNew(d: Entries, key: string, value: Value)
    requires forall j :: 0 <= j < |d| ==> d[j].0 != key
    ensures Set(d, key, value) == d + [(key, value)]
  {
    if d != [] {
      SetNew(d[1..], key, value);
      assert d + [(key, value)] == [d[0]] + (d[1..] + [(key, value)]);
    }
  }

  /** The keys after an assignment: unchanged if the key was present, else one more at the
      end. */
  lemma SetKeys(d: Entries, key: string, value: Value)
    ensures Keys(Set(d, key, value)) == if key in Keys(d) then Keys(d) else Keys(d) + [key]
  {
    var r := Set(d, key, value);
    if key in Keys(d) {
      var i := Index(Keys(d), key);
      SetAt(d, key, value, i);
      assert forall j :: 0 <= j < |r| ==> Keys(r)[j] == Keys(d)[j];
    } else {
      assert forall j :: 0 <= j < |d| ==> d[j].0 != key by {
        forall j | 0 <= j < |d| ensures d[j].0 != key {
          assert Keys(d)[j] == d[j].0;
        }
      }
      SetNew(d, key, value);
      assert forall j :: 0 <= j < |r| ==> Keys(r)[j] == (Keys(d) + [key])[j];
    }
  }

  /** After `d[key] = value`, key holds value and every other key what it held before. */
  lemma {:induction false} SetLookup(d: Entries, key: string, value: Value, other: string)
    ensures Lookup(Set(d, key, value), key) == Some(value)
    ensures other != key ==> Lookup(Set(d, key, value), other) == Lookup(d, other)
  {
    if d != [] && d[0].0 != key {
      SetLookup(d[1..], key, value, other);
    }
  }

  /** An assignment keeps the dictionary free of repeated keys. */
  lemma SetDistinct(d: Entries, key: string, value: Value)
    requires DistinctKeys(d)
    ensures DistinctKeys(Set(d, key, value))
  {
    SetKeys(d, key, value);
    var r := Set(d, key, value);
    forall i, j | 0 <= i < j < |r| ensures r[i].0 != r[j].0 {
      assert r[i].0 == Keys(r)[i] && r[j].0 == Keys(r)[j];
      if key !in Keys(d) && j == |d| {
        assert Keys(d)[i] == d[i].0;
      } else {
        assert Keys(d)[i] == d[i].0 && Keys(d)[j] == d[j].0;
      }
    }
  }

  /** Assigning a key the value it already holds changes nothing. */
  lemma {:induction false} SetSame(d: Entries, key: string, value: Value)
    requires Lookup(d, key) == Some(value)
    ensures Set(d, key, value) == d
  {
    if d[0].0 != key {
      SetSame(d[1..], key, value);
    }
  }

  /** `d.update(other)`: the items of other assigned in order. */
  function UpdateAll(d: Entries, other: Entries): Entries
    decreases |other|
  {
    if other == [] then d
    else
      var n := |other| - 1;
      Set(UpdateAll(d, other[..n]), other[n].0, other[n].1)
  }

  /** Reference for the key order of an update: the keys ks, then each key of more that is
      not yet there, in the order it first appears. */
  function Merge(ks: seq<string>, more: seq<string>): seq<string>
    decreases |more|
  {
    if more == [] then ks
    else
      var n := |more| - 1;
      var m := Merge(ks, more[..n]);
      if more[n] in m then m else m + [more[n]]
  }

  lemma {:induction false} MergeShape(ks: seq<string>, more: seq<string>)
    ensures |ks| <= |Merge(ks, more)| && Merge(ks, more)[..|ks|] == ks
    ensures forall x :: x in Merge(ks, more) <==> x in ks || x in more
    decreases |more|
  {
    if more != [] {
      var n := |more| - 1;
      MergeShape(ks, more[..n]);
      assert more == more[..n] + [more[n]];
    }
  }

  lemma KeysOfPrefix(d: Entries, n: nat)
    requires n <= |d|
    ensures Keys(d[..n]) == Keys(d)[..n]
  {
  }

  /** The keys after an update: the old keys keep their places, and the new ones follow in
      the other dictionary's order. */
  lemma {:induction false} UpdateKeys(d: Entries, other: Entries)
    ensures Keys(UpdateAll(d, other)) == Merge(Keys(d), Keys(other))
    decreases |other|
  {
    if other != [] {
      var n := |other| - 1;
      UpdateKeys(d, other[..n]);
      SetKeys(UpdateAll(d, other[..n]), other[n].0, other[n].1);
      KeysOfPrefix(other, n);
      assert Keys(other)[n] == other[n].0;
    }
  }

  /** After an update, a key the other dictionary does not have holds what it held. */
  lemma {:induction false} UpdateKeeps(d: Entries, other: Entries, key: string)
    requires forall j :: 0 <= j < |other| ==> other[j].0 != key
    ensures Lookup(UpdateAll(d, other), key) == Lookup(d, key)
    decreases |other|
  {
    if other != [] {
      var n := |other| - 1;
      UpdateKeeps(d, other[..n], key);
      SetLookup(UpdateAll(d, other[..n]), other[n].0, other[n].1, key);
    }
  }

  /** After an update, a key of the other dictionary holds the value of its last item
      there. */
  lemma {:induction false} UpdateLookup(d: Entries, other: Entries, i: nat)
    requires i < |other|
    requires forall j :: i < j < |other| ==> other[j].0 != other[i].0
    ensures Lookup(UpdateAll(d, other), other[i].0) == Some(other[i].1)
    decreases |other|
  {
    var n := |other| - 1;
    var key := other[i].0;
    SetLookup(UpdateAll(d, other[..n]), other[n].0, other[n].1, key);
    if i < n {
      UpdateLookup(d, other[..n], i);
    }
  }

  /** An update keeps the dictionary free of repeated keys. */
  lemma {:induction false} UpdateDistinct(d: Entries, other: Entries)
    requires DistinctKeys(d)
    ensures DistinctKeys(UpdateAll(d, other))
    decreases |other|
  {
    if other != [] {
      var n := |other| - 1;
      UpdateDistinct(d, other[..n]);
      SetDistinct(UpdateAll(d, other[..n]), other[n].0, other[n].1);
    }
  }

  /** Inserting items with distinct keys into an empty dict, one by one, keeps them all in
      their order. */
  lemma {:induction false} DistinctUpdate(d: Entries, n: nat)
    requires n <= |d| && DistinctKeys(d)
    ensures UpdateAll([], d[..n]) == d[..n]
  {
    if n > 0 {
      DistinctUpdate(d, n - 1);
      assert d[..n][..n - 1] == d[..n - 1];
      SetNew(d[..n - 1], d[n - 1].0, d[n - 1].1);
      assert d[..n - 1] + [d[n - 1]] == d[..n];
    }
  }

  /** The title save_as_markdown writes: `frontmatter.get('title', 'Untitled')`, unwrapped to
      its `rendered` entry (default 'Untitled') when it is a dict. */
  function TitleValue(d: Entries): Value {
    var t := Get(d, "title", Str("Untitled"));
    if t.Dict? then Get(t.entries, "rendered", Str("Untitled")) else t
  }

  /** `frontmatter['title'] = title`. */
  function NormalizeTitle(d: Entries): Entries {
    Set(d, "title", TitleValue(d))
  }

  /** Title normalisation: a dict-valued title is replaced by its `rendered` entry (or
      'Untitled'); the key stays where it was; every other key is untouched. */
  lemma NormalizeTitleEffect(d: Entries, key: string)
    ensures Lookup(d, "title").Some? && Lookup(d, "title").value.Dict? ==>
              Lookup(NormalizeTitle(d), "title") == Some(Get(Lookup(d, "title").value.entries, "rendered", Str("Untitled")))
    ensures Lookup(d, "title").None? ==> Lookup(NormalizeTitle(d), "title") == Some(Str("Untitled"))
    ensures key != "title" ==> Lookup(NormalizeTitle(d), key) == Lookup(d, key)
    ensures "title" in Keys(d) ==> Keys(NormalizeTitle(d)) == Keys(d)
  {
    SetLookup(d, "title", TitleValue(d), key);
    SetKeys(d, "title", TitleValue(d));
  }

  /** A title that is not a dict is left as it is, and then nothing changes at all. */
  lemma PlainTitleUnchanged(d: Entries)
    requires Lookup(d, "title").Some? && !Lookup(d, "title").value.Dict?
    ensures NormalizeTitle(d) == d
  {
    SetSame(d, "title", TitleValue(d));
  }

  /** The file save_as_markdown writes: a `---` fence, the YAML of the frontmatter, a closing
      fence and a blank line, then the content. */
  function FileText(yamlText: string, content: string): string {
    "---\n" + yamlText + "---\n\n" + content
  }

  /** The file text falls apart again into its YAML and its content. */
  lemma FileTextParts(yamlText: string, content: string)
    ensures var t := FileText(yamlText, content); var y := |yamlText|;
            && |t| == y + 9 + |content|
            && t[..4] == "---\n" && t[4..4 + y] == yamlText
            && t[4 + y..9 + y] == "---\n\n" && t[9 + y..] == content
  {
    var t := FileText(yamlText, content);
    var y := |yamlText|;
    assert t == "---\n" + yamlText + "---\n\n" + content;
    assert t[9 + y..] == content;
  }

  /** The frontmatter dict, updated in place by item assignment and `update`. */
  class OrderedDict {

    var entries: Entries

    constructor ()
      ensures entries == []
    {
      entries := [];
    }

    /** A dict display `{k1: v1, k2: v2, ...}` with distinct keys: its items are inserted
        one by one, so it holds exactly them, in order. */
    constructor FromItems(items: Entries)
      requires DistinctKeys(items)
      ensures entries == items
    {
      entries := [];
      new;
      Update(items);
      DistinctUpdate(items, |items|);
      assert items[..|items|] == items;
    }

    /** `d.get(key, default)`. */
    function GetItem(key: string, default: Value): (v: Value)
      reads this
      ensures Lookup(entries, key).Some? ==> v == Lookup(entries, key).value
      ensures Lookup(entries, key).None? ==> v == default
    {
      Get(entries, key, default)
    }

    /** `d[key] = value`: search for the key; overwrite its entry where it stands, or append. */
    method SetItem(key: string, value: Value)
      modifies this
      ensures entries == Set(old(entries), key, value)
    {
      var i := 0;
      while i < |entries| && entries[i].0 != key
        invariant i <= |entries|
        invariant forall j :: 0 <= j < i ==> entries[j].0 != key
      {
        i := i + 1;
      }
      if i < |entries| {
        SetAt(entries, key, value, i);
        entries := entries[i := (key, value)];
      } else {
        SetNew(entries, key, value);
        entries := entries + [(key, value)];
      }
    }

    /** `d.update(other)`. */
    method Update(other: Entries)
      modifies this
      ensures entries == UpdateAll(old(entries), other)
    {
      for i := 0 to |other|
        invariant entries == UpdateAll(old(entries), other[..i])
      {
        assert other[..i + 1][..i] == other[..i];
        SetItem(other[i].0, other[i].1);
      }
      assert other[..|other|] == other;
    }
  }

  /** save_as_markdown: normalise the title in the caller's dict, then lay out the file. The
      YAML serialiser is a parameter; the file write is not modelled, the text is returned. */
  method SaveAsMarkdown(frontmatter: OrderedDict, content: string, yaml: Entries -> string)
    returns (text: string)
    modifies frontmatter
    ensures frontmatter.entries == NormalizeTitle(old(frontmatter.entries))
    ensures text == FileText(yaml(frontmatter.entries), content)
  {
    var title := frontmatter.GetItem("title", Str("Untitled"));
    if title.Dict? {
      title := Get(title.entries, "rendered", Str("Untitled"));
    }
    frontmatter.SetItem("title", title);
    text := "---\n" + yaml(frontmatter.entries) + "---\n\n" + content;
  }
}
