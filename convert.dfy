/** convert_post_to_md (autoStattic.py:90-157) and the file save_as_markdown lays out for it
    (autoStattic.py:72-83): one WordPress post or page, given as the dictionary its JSON
    decodes to, becomes a file path and a Markdown text with YAML frontmatter.

    The HTML-to-Markdown converter, the YAML serialiser and the module-level `domain_url`
    are parameters. Where the Python code would raise (a `.get` on something that is not a
    dict, `.replace` on something that is not a string, an unhashable dictionary key,
    iterating over something that cannot be iterated), the model returns the error. */
module Convert {

  import opened Base
  import opened Text
  import opened Values
  import Taxonomy
  import Blocks
  import Render
  import Media
  import opened Frontmatter

  /** The `post_type` argument: "post" or "page". */
  datatype PostType = Post | Page {
    function Name(): string {
      match this
      case Post => "post"
      case Page => "page"
    }
  }

  /** What one call produces: the file path, the file text, and the frontmatter dict as the
      caller's object holds it afterwards. */
  datatype Output = Output(path: string, text: string, frontmatter: Entries)

  /** `post.get('slug', f'{post_type}-{post.get("id")}')`, then `.replace('/', '-')`. */
  function SlugOf(post: Entries, postType: PostType): (r: Result<string>)
    ensures r.Ok? ==> '/' !in r.value
  {
    var fallback := Str(postType.Name() + "-" + PyStr(Get(post, "id", Null)));
    match Get(post, "slug", fallback)
    case Str(s) => Ok(ReplaceChar(s, '/', '-'))
    case _ => Err(AttributeError)
  }

  /** The slug is the post's own slug when it has one, otherwise the post type and the id;
      every `/` in it becomes `-`; a slug that is not a string fails like `.replace` would. */
  lemma SlugCases(post: Entries, postType: PostType)
    ensures Lookup(post, "slug").Some? && Lookup(post, "slug").value.Str? ==>
              SlugOf(post, postType) == Ok(ReplaceChar(Lookup(post, "slug").value.s, '/', '-'))
    ensures Lookup(post, "slug").Some? && !Lookup(post, "slug").value.Str? ==>
              SlugOf(post, postType) == Err(AttributeError)
    ensures Lookup(post, "slug").None? ==>
              SlugOf(post, postType) == Ok(ReplaceChar(postType.Name() + "-" + PyStr(Get(post, "id", Null)), '/', '-'))
  {
  }

  /** `os.path.join(os.path.join(CONTENT_DIR, f"{post_type}s"), f"{slug}.md")`. */
  function PathOf(postType: PostType, slug: string): string {
    "content/" + postType.Name() + "s/" + slug + ".md"
  }

  /** The file lands directly in `content/posts` or `content/pages`: after that directory and
      its separator there is no further `/`, and the name is the slug with `.md`. */
  lemma PathInTypeDirectory(postType: PostType, slug: string)
    requires '/' !in slug
    ensures var dir := "content/" + postType.Name() + "s"; var p := PathOf(postType, slug);
            && p[..|dir| + 1] == dir + "/"
            && p[|dir| + 1..] == slug + ".md"
            && forall k :: |dir| + 1 <= k < |p| ==> p[k] != '/'
  {
    var dir := "content/" + postType.Name() + "s";
    var p := PathOf(postType, slug);
    assert p == (dir + "/") + (slug + ".md");
    forall k | |dir| + 1 <= k < |p| ensures p[k] != '/' {
      var j := k - (|dir| + 1);
      assert p[k] == (slug + ".md")[j];
      if j < |slug| {
        assert (slug + ".md")[j] == slug[j];
      }
    }
  }

  /** `post.get('content', {}).get('rendered', '')`, which re.split needs to be a string: a
      post without content has an empty body, a content that is not a dict has no `.get`. */
  function HtmlOf(post: Entries): (r: Result<string>)
    ensures Lookup(post, "content").None? ==> r == Ok("")
    ensures !Get(post, "content", Dict([])).Dict? ==> r == Err(AttributeError)
    ensures r.Ok? <==> (var c := Get(post, "content", Dict([])); c.Dict? && Get(c.entries, "rendered", Str("")).Str?)
  {
    var html :- GetOn(Get(post, "content", Dict([])), "rendered", Str(""));
    if html.Str? then Ok(html.s) else Err(TypeError)
  }

  /** `authors.get(post.get('author', 0), "Unknown")`. */
  function AuthorName(post: Entries, authors: map<Value, Value>): (r: Result<Value>)
    ensures r.Ok? <==> Hashable(Get(post, "author", Int(0)))
    ensures r.Ok? ==> var id := Get(post, "author", Int(0));
                      r.value == if id in authors then authors[id] else Str("Unknown")
  {
    var id := Get(post, "author", Int(0));
    if !Hashable(id) then Err(TypeError)
    else if id in authors then Ok(authors[id])
    else Ok(Str("Unknown"))
  }

  /** `post.get('title', {}).get('rendered', 'Untitled')`. */
  function TitleOf(post: Entries): (r: Result<Value>)
    ensures r.Ok? <==> Get(post, "title", Dict([])).Dict?
    ensures Lookup(post, "title").None? ==> r == Ok(Str("Untitled"))
  {
    GetOn(Get(post, "title", Dict([])), "rendered", Str("Untitled"))
  }

  /** `html_converter.handle(post.get('excerpt', {}).get('rendered', '')).strip()`; the
      converter only accepts a string. */
  function ExcerptOf(post: Entries, html2text: string -> string): (r: Result<string>)
    ensures r.Ok? && r.value != [] ==> !IsSpace(r.value[0]) && !IsSpace(r.value[|r.value| - 1])
    ensures Lookup(post, "excerpt").None? ==> r == Ok(Strip(html2text("")))
  {
    var e :- GetOn(Get(post, "excerpt", Dict([])), "rendered", Str(""));
    if e.Str? then Ok(Strip(html2text(e.s))) else Err(ConverterInput)
  }

  /** `map_term_ids_to_names(post.get(key, []), table)`: the ids are whatever iterating over
      the post's value yields. */
  function TermNames(post: Entries, key: string, table: Taxonomy.TermTable): (r: Result<Value>)
    ensures r.Ok? ==> var ids := Iterate(Get(post, key, List([])));
                      ids.Ok? && r.value.List? && |r.value.elems| == |ids.value|
  {
    var ids :- Iterate(Get(post, key, List([])));
    var names :- Taxonomy.MapTermIdsToNames(ids, table);
    Ok(List(names))
  }

  /** The keys the first dict display and the two term assignments put in front. */
  const LeadingKeys: seq<string> := ["title", "date", "author", "excerpt", "custom_url", "type", "categories", "tags"]

  /** The keys of the post that are not copied into the frontmatter. */
  predicate Excluded(key: string) {
    key in ["content", "excerpt", "guid", "_links", "_embedded", "acf"]
  }

  /** The first dict display: title, date, author, excerpt, custom_url, type. */
  function Display(post: Entries, author: Value, title: Value, excerpt: string, postType: PostType): Entries {
    [("title", title), ("date", Get(post, "date", Str(""))), ("author", author),
     ("excerpt", Str(excerpt)), ("custom_url", Get(post, "slug", Str(""))), ("type", Str(postType.Name()))]
  }

  /** Everything up to the custom taxonomies: the display, the categories and tags, and acf
      when it is truthy. */
  function Resolved(post: Entries, authors: map<Value, Value>, categories: Taxonomy.TermTable,
                    tags: Taxonomy.TermTable, postType: PostType, html2text: string -> string): Result<Entries>
  {
    var author :- AuthorName(post, authors);
    var title :- TitleOf(post);
    var excerpt :- ExcerptOf(post, html2text);
    Terms(Display(post, author, title, excerpt, postType), post, categories, tags)
  }

  /** The categories, tags and acf assignments on the dict d, resolving the term names
      first. */
  function Terms(d: Entries, post: Entries, categories: Taxonomy.TermTable, tags: Taxonomy.TermTable): Result<Entries> {
    var c :- TermNames(post, "categories", categories);
    var t :- TermNames(post, "tags", tags);
    Ok(WithTerms(d, c, t, Get(post, "acf", Null)))
  }

  /** `frontmatter['categories'] = ...`, `frontmatter['tags'] = ...`, and
      `frontmatter['acf'] = acf_data` when it is truthy. */
  function WithTerms(d: Entries, c: Value, t: Value, acf: Value): Entries {
    var d := Set(Set(d, "categories", c), "tags", t);
    if Truthy(acf) then Set(d, "acf", acf) else d
  }

  /** The loop over the custom taxonomies, in their order: a taxonomy that is a key of the
      post gets the names of the post's ids. */
  function AddCustom(fm: Entries, post: Entries, custom: seq<(string, Taxonomy.TermTable)>): Result<Entries>
    decreases |custom|
  {
    if custom == [] then Ok(fm)
    else
      var n := |custom| - 1;
      var prev :- AddCustom(fm, post, custom[..n]);
      var name := custom[n].0;
      if name in Keys(post) then
        var names :- TermNames(post, name, custom[n].1);
        Ok(Set(prev, name, names))
      else Ok(prev)
  }

  /** The custom taxonomies that are keys of the post, in their order. */
  function CustomPresent(custom: seq<(string, Taxonomy.TermTable)>, post: Entries): seq<string>
    decreases |custom|
  {
    if custom == [] then []
    else
      var n := |custom| - 1;
      CustomPresent(custom[..n], post) + if custom[n].0 in Keys(post) then [custom[n].0] else []
  }

  /** `{k: v for k, v in post.items() if k not in [...]}`. */
  function Filtered(post: Entries): Entries {
    if post == [] then []
    else (if Excluded(post[0].0) then [] else [post[0]]) + Filtered(post[1..])
  }

  /** The copy holds exactly the post's items whose keys are not excluded. */
  lemma {:induction false} FilteredMembers(post: Entries)
    ensures forall e :: e in Filtered(post) <==> e in post && !Excluded(e.0)
  {
    if post != [] {
      FilteredMembers(post[1..]);
      assert forall e :: e in post <==> e == post[0] || e in post[1..];
    }
  }

  /** The frontmatter dict just before save_as_markdown. */
  function FrontmatterOf(post: Entries, authors: map<Value, Value>, categories: Taxonomy.TermTable,
                         tags: Taxonomy.TermTable, custom: seq<(string, Taxonomy.TermTable)>,
                         postType: PostType, html2text: string -> string): Result<Entries>
  {
    var fm :- Resolved(post, authors, categories, tags, postType, html2text);
    var fm :- AddCustom(fm, post, custom);
    Ok(UpdateAll(fm, Filtered(post)))
  }

  /** The whole of convert_post_to_md, in the order the Python code evaluates it. */
  function ConvertSpec(post: Entries, authors: map<Value, Value>, categories: Taxonomy.TermTable,
                       tags: Taxonomy.TermTable, custom: seq<(string, Taxonomy.TermTable)>,
                       postType: PostType, useMarkdown: bool, html2text: string -> string,
                       domainUrl: string, yaml: Entries -> string): Result<Output>
  {
    var slug :- SlugOf(post, postType);
    var html :- HtmlOf(post);
    var content := Media.ProcessMediaLinks(Render.ConvertedBody(html, useMarkdown, html2text), domainUrl);
    var fm :- FrontmatterOf(post, authors, categories, tags, custom, postType, html2text);
    var saved := NormalizeTitle(fm);
    Ok(Output(PathOf(postType, slug), FileText(yaml(saved), content), saved))
  }

  /** Once the custom-taxonomy loop has failed on a prefix, the whole loop fails the same
      way. */
  lemma {:induction false} AddCustomErr(fm: Entries, post: Entries, custom: seq<(string, Taxonomy.TermTable)>, k: nat)
    requires k <= |custom| && AddCustom(fm, post, custom[..k]).Err?
    ensures AddCustom(fm, post, custom) == AddCustom(fm, post, custom[..k])
    decreases |custom| - k
  {
    if k < |custom| {
      var init := custom[..|custom| - 1];
      assert init[..k] == custom[..k];
      AddCustomErr(fm, post, init, k);
    } else {
      assert custom[..k] == custom;
    }
  }

  /** The body steps of convert_post_to_md: fetch the HTML, split it, render every segment,
      and rewrite the media links. */
  method RenderContent(post: Entries, useMarkdown: bool, html2text: string -> string, domainUrl: string)
    returns (r: Result<string>)
    ensures r.Ok? <==> HtmlOf(post).Ok?
    ensures r.Err? ==> r.error == HtmlOf(post).error
    ensures r.Ok? ==> r.value == Media.ProcessMediaLinks(Render.ConvertedBody(HtmlOf(post).value, useMarkdown, html2text), domainUrl)
  {
    var contentHolder := Get(post, "content", Dict([]));
    if !contentHolder.Dict? {
      return Err(AttributeError);
    }
    var html := Get(contentHolder.entries, "rendered", Str(""));
    if !html.Str? {
      return Err(TypeError);
    }
    var blocks := Blocks.Split(html.s);
    var converted := Render.ConvertBlocks(blocks, useMarkdown, html2text);
    r := Ok(Media.ProcessMediaLinks(converted, domainUrl));
  }

  /** convert_post_to_md as written: the slug, the rendering loop over the split body, the
      media rewrite, the frontmatter dict, then save_as_markdown on it. */
  method ConvertPostToMd(post: Entries, authors: map<Value, Value>, categories: Taxonomy.TermTable,
                         tags: Taxonomy.TermTable, custom: seq<(string, Taxonomy.TermTable)>,
                         postType: PostType, useMarkdown: bool, html2text: string -> string,
                         domainUrl: string, yaml: Entries -> string)
    returns (r: Result<Output>)
    ensures r == ConvertSpec(post, authors, categories, tags, custom, postType, useMarkdown, html2text, domainUrl, yaml)
  {
    var slugValue := Get(post, "slug", Str(postType.Name() + "-" + PyStr(Get(post, "id", Null))));
    if !slugValue.Str? {
      return Err(AttributeError);
    }
    var slug := ReplaceChar(slugValue.s, '/', '-');
    assert SlugOf(post, postType) == Ok(slug);

    var rendered := RenderContent(post, useMarkdown, html2text, domainUrl);
    if rendered.Err? {
      return Err(rendered.error);
    }
    var content := rendered.value;

    var built := BuildFrontmatter(post, authors, categories, tags, custom, postType, html2text);
    if built.Err? {
      return Err(built.error);
    }
    var frontmatter := built.value;
    var text := SaveAsMarkdown(frontmatter, content, yaml);
    r := Ok(Output(PathOf(postType, slug), text, frontmatter.entries));
  }

  /** The frontmatter part of convert_post_to_md: the dict display, the term assignments,
      acf, the custom-taxonomy loop and the final `update`. */
  method BuildFrontmatter(post: Entries, authors: map<Value, Value>, categories: Taxonomy.TermTable,
                          tags: Taxonomy.TermTable, custom: seq<(string, Taxonomy.TermTable)>,
                          postType: PostType, html2text: string -> string)
    returns (r: Result<OrderedDict>)
    ensures r.Ok? ==> fresh(r.value)
    ensures r.Ok? ==> FrontmatterOf(post, authors, categories, tags, custom, postType, html2text) == Ok(r.value.entries)
    ensures r.Err? ==> FrontmatterOf(post, authors, categories, tags, custom, postType, html2text) == Err(r.error)
  {
    var resolved := ResolvedDict(post, authors, categories, tags, postType, html2text);
    if resolved.Err? {
      return Err(resolved.error);
    }
    var frontmatter := resolved.value;
    ghost var start := frontmatter.entries;

    for i := 0 to |custom|
      invariant AddCustom(start, post, custom[..i]) == Ok(frontmatter.entries)
    {
      assert custom[..i + 1][..i] == custom[..i];
      var name := custom[i].0;
      if name in Keys(post) {
        var names := TermNames(post, name, custom[i].1);
        if names.Err? {
          AddCustomErr(start, post, custom, i + 1);
          return Err(names.error);
        }
        frontmatter.SetItem(name, names.value);
      }
    }
    assert custom[..|custom|] == custom;

    frontmatter.Update(Filtered(post));
    r := Ok(frontmatter);
  }

  /** The frontmatter dict up to the custom taxonomies. */
  method ResolvedDict(post: Entries, authors: map<Value, Value>, categories: Taxonomy.TermTable,
                      tags: Taxonomy.TermTable, postType: PostType, html2text: string -> string)
    returns (r: Result<OrderedDict>)
    ensures r.Ok? ==> fresh(r.value)
    ensures r.Ok? ==> Resolved(post, authors, categories, tags, postType, html2text) == Ok(r.value.entries)
    ensures r.Err? ==> Resolved(post, authors, categories, tags, postType, html2text) == Err(r.error)
  {
    var authorId := Get(post, "author", Int(0));
    if !Hashable(authorId) {
      return Err(TypeError);
    }
    var authorName := if authorId in authors then authors[authorId] else Str("Unknown");

    var titleHolder := Get(post, "title", Dict([]));
    if !titleHolder.Dict? {
      return Err(AttributeError);
    }
    var title := Get(titleHolder.entries, "rendered", Str("Untitled"));

    var excerptHolder := Get(post, "excerpt", Dict([]));
    if !excerptHolder.Dict? {
      return Err(AttributeError);
    }
    var excerptHtml := Get(excerptHolder.entries, "rendered", Str(""));
    if !excerptHtml.Str? {
      return Err(ConverterInput);
    }
    var excerpt := Strip(html2text(excerptHtml.s));

    DisplayFacts(post, authorName, title, excerpt, postType);
    var frontmatter := new OrderedDict.FromItems(Display(post, authorName, title, excerpt, postType));
    var failure := AssignTerms(frontmatter, post, categories, tags);
    if failure.Some? {
      return Err(failure.value);
    }
    r := Ok(frontmatter);
  }

  /** The assignments of the resolved categories and tags, and of acf when it is truthy. */
  method AssignTerms(frontmatter: OrderedDict, post: Entries, categories: Taxonomy.TermTable, tags: Taxonomy.TermTable)
    returns (failure: Option<PyError>)
    modifies frontmatter
    ensures failure.None? ==> Terms(old(frontmatter.entries), post, categories, tags) == Ok(frontmatter.entries)
    ensures failure.Some? ==> Terms(old(frontmatter.entries), post, categories, tags) == Err(failure.value)
  {
    var categoryNames := TermNames(post, "categories", categories);
    if categoryNames.Err? {
      return Some(categoryNames.error);
    }
    frontmatter.SetItem("categories", categoryNames.value);
    var tagNames := TermNames(post, "tags", tags);
    if tagNames.Err? {
      return Some(tagNames.error);
    }
    frontmatter.SetItem("tags", tagNames.value);

    var acf := Get(post, "acf", Null);
    if Truthy(acf) {
      frontmatter.SetItem("acf", acf);
    }
    failure := None;
  }

  /** Filtering keeps the post's keys distinct. */
  lemma {:induction false} FilteredDistinct(post: Entries)
    requires DistinctKeys(post)
    ensures DistinctKeys(Filtered(post))
  {
    if post != [] {
      var rest := Filtered(post[1..]);
      FilteredDistinct(post[1..]);
      FilteredMembers(post[1..]);
      forall e | e in rest ensures e.0 != post[0].0 {
        var i :| 0 <= i < |post[1..]| && post[1..][i] == e;
        assert post[i + 1] == e;
      }
    }
  }

  /** The copy of a concatenation is the copies of its parts, concatenated. */
  lemma {:induction false} FilteredAppend(a: Entries, b: Entries)
    ensures Filtered(a + b) == Filtered(a) + Filtered(b)
  {
    if a != [] {
      var tail := a[1..];
      FilteredAppend(tail, b);
      FilteredAppendStep(a, b);
    } else {
      assert a + b == b;
    }
  }

  lemma FilteredAppendStep(a: Entries, b: Entries)
    requires a != [] && Filtered(a[1..] + b) == Filtered(a[1..]) + Filtered(b)
    ensures Filtered(a + b) == Filtered(a) + Filtered(b)
  {
    var first := if Excluded(a[0].0) then [] else [a[0]];
    var x, y := Filtered(a[1..]), Filtered(b);
    assert Filtered(a + b) == first + (x + y) by {
      assert (a + b)[0] == a[0] && (a + b)[1..] == a[1..] + b;
    }
    ConcatAssoc(first, x, y);
  }

  /** The copy keeps the post's order: each item appears exactly where it stands, unless its
      key is excluded. */
  lemma FilteredInOrder(a: Entries, e: (string, Value), b: Entries)
    ensures Filtered(a + [e] + b) == Filtered(a) + (if Excluded(e.0) then [] else [e]) + Filtered(b)
  {
    var x := a + [e];
    FilteredAppend(x, b);
    FilteredAppend(a, [e]);
    FilteredOne(e);
  }

  lemma FilteredOne(e: (string, Value))
    ensures Filtered([e]) == if Excluded(e.0) then [] else [e]
  {
    assert [e][1..] == [];
  }

  /** The present custom taxonomies are the custom taxonomies that are keys of the post:
      every one of them is there, and nothing else. */
  lemma {:induction false} CustomPresentMembers(custom: seq<(string, Taxonomy.TermTable)>, post: Entries)
    ensures |CustomPresent(custom, post)| <= |custom|
    ensures forall n :: n in CustomPresent(custom, post) ==> n in Keys(post)
    ensures forall i :: 0 <= i < |custom| && custom[i].0 in Keys(post) ==> custom[i].0 in CustomPresent(custom, post)
    decreases |custom|
  {
    if custom != [] {
      var n := |custom| - 1;
      var init := custom[..n];
      CustomPresentMembers(init, post);
      assert forall i :: 0 <= i < n ==> init[i] == custom[i];
    }
  }

  /** The present custom taxonomies of a concatenation are those of its parts,
      concatenated. */
  lemma {:induction false} CustomPresentAppend(a: seq<(string, Taxonomy.TermTable)>,
                                               b: seq<(string, Taxonomy.TermTable)>, post: Entries)
    ensures CustomPresent(a + b, post) == CustomPresent(a, post) + CustomPresent(b, post)
    decreases |b|
  {
    if b == [] {
      assert a + b == a;
    } else {
      var n := |b| - 1;
      var init := b[..n];
      CustomPresentAppend(a, init, post);
      var last := if b[n].0 in Keys(post) then [b[n].0] else [];
      var x, y := CustomPresent(a, post), CustomPresent(init, post);
      assert CustomPresent(a + b, post) == (x + y) + last by {
        assert (a + b)[..|a + b| - 1] == a + init && (a + b)[|a + b| - 1] == b[n];
      }
      ConcatAssoc(x, y, last);
    }
  }

  /** The present custom taxonomies keep the listing order: each taxonomy appears exactly
      where it stands, if the post carries it. */
  lemma CustomPresentInOrder(a: seq<(string, Taxonomy.TermTable)>, t: (string, Taxonomy.TermTable),
                             b: seq<(string, Taxonomy.TermTable)>, post: Entries)
    ensures CustomPresent(a + [t] + b, post)
            == CustomPresent(a, post) + (if t.0 in Keys(post) then [t.0] else []) + CustomPresent(b, post)
  {
    CustomPresentAppend(a + [t], b, post);
    CustomPresentAppend(a, [t], post);
    assert [t][..0] == [];
  }

  /** The dict display has the six leading keys, once each, and holds the converted
      excerpt. */
  lemma DisplayFacts(post: Entries, author: Value, title: Value, excerpt: string, postType: PostType)
    ensures var d := Display(post, author, title, excerpt, postType);
            DistinctKeys(d) && Keys(d) == LeadingKeys[..6] && Lookup(d, "excerpt") == Some(Str(excerpt))
  {
    var d := Display(post, author, title, excerpt, postType);
    DisplayKeys(post, author, title, excerpt, postType);
    DisplayDistinct(d);
    assert d[3] == ("excerpt", Str(excerpt));
    LookupFinds(d, "excerpt");
  }

  lemma DisplayKeys(post: Entries, author: Value, title: Value, excerpt: string, postType: PostType)
    ensures Keys(Display(post, author, title, excerpt, postType)) == LeadingKeys[..6]
  {
  }

  /** Entries whose keys are the six leading ones have distinct keys. */
  lemma DisplayDistinct(d: Entries)
    requires Keys(d) == LeadingKeys[..6]
    ensures DistinctKeys(d)
  {
    var ks := LeadingKeys[..6];
    assert forall i, j :: 0 <= i < j < 6 ==> ks[i] != ks[j];
  }

  /** The term assignments on the display: eight leading keys, then acf when truthy. */
  lemma WithTermsKeys(d: Entries, c: Value, t: Value, acf: Value)
    requires Keys(d) == LeadingKeys[..6]
    ensures Keys(WithTerms(d, c, t, acf)) == LeadingKeys + if Truthy(acf) then ["acf"] else []
  {
    var d1 := Set(d, "categories", c);
    var d2 := Set(d1, "tags", t);
    LeadingKeysFresh();
    AppendKey(d, "categories", c, LeadingKeys[..6]);
    AppendKey(d1, "tags", t, LeadingKeys[..7]);
    AppendKey(d2, "acf", acf, LeadingKeys);
  }

  /** Each term assignment adds a key the display does not have yet, at the end. */
  lemma LeadingKeysFresh()
    ensures "categories" !in LeadingKeys[..6] && LeadingKeys[..6] + ["categories"] == LeadingKeys[..7]
    ensures "tags" !in LeadingKeys[..7] && LeadingKeys[..7] + ["tags"] == LeadingKeys
    ensures "acf" !in LeadingKeys
  {
    assert LeadingKeys[..7] == ["title", "date", "author", "excerpt", "custom_url", "type", "categories"];
  }

  /** Assigning a key not in the dictionary appends it to the keys. */
  lemma AppendKey(d: Entries, key: string, value: Value, ks: seq<string>)
    requires Keys(d) == ks && key !in ks
    ensures Keys(Set(d, key, value)) == ks + [key]
  {
    SetKeys(d, key, value);
  }

  /** The term assignments store their values and leave the excerpt alone. */
  lemma WithTermsValues(d: Entries, c: Value, t: Value, acf: Value)
    ensures var w := WithTerms(d, c, t, acf);
            && Lookup(w, "excerpt") == Lookup(d, "excerpt")
            && Lookup(w, "categories") == Some(c)
            && Lookup(w, "tags") == Some(t)
            && (Truthy(acf) ==> Lookup(w, "acf") == Some(acf))
  {
    var d1 := Set(d, "categories", c);
    var d2 := Set(d1, "tags", t);
    SetLookup(d, "categories", c, "excerpt");
    SetLookup(d1, "tags", t, "excerpt");
    SetLookup(d1, "tags", t, "categories");
    SetLookup(d2, "acf", acf, "excerpt");
    SetLookup(d2, "acf", acf, "categories");
    SetLookup(d2, "acf", acf, "tags");
  }

  /** The term assignments touch only categories, tags and acf. */
  lemma WithTermsKeeps(d: Entries, c: Value, t: Value, acf: Value, key: string)
    requires key != "categories" && key != "tags" && key != "acf"
    ensures Lookup(WithTerms(d, c, t, acf), key) == Lookup(d, key)
  {
    var d1 := Set(d, "categories", c);
    var d2 := Set(d1, "tags", t);
    SetLookup(d, "categories", c, key);
    SetLookup(d1, "tags", t, key);
    SetLookup(d2, "acf", acf, key);
  }

  /** Before the custom taxonomies, author holds the name looked up for the post's author
      id. */
  lemma ResolvedAuthor(post: Entries, authors: map<Value, Value>, categories: Taxonomy.TermTable,
                       tags: Taxonomy.TermTable, postType: PostType, html2text: string -> string)
    requires Resolved(post, authors, categories, tags, postType, html2text).Ok?
    ensures Lookup(Resolved(post, authors, categories, tags, postType, html2text).value, "author")
            == Some(AuthorName(post, authors).value)
  {
    var author := AuthorName(post, authors).value;
    var title := TitleOf(post).value;
    var excerpt := ExcerptOf(post, html2text).value;
    var d := Display(post, author, title, excerpt, postType);
    DisplayFacts(post, author, title, excerpt, postType);
    assert d[2] == ("author", author);
    LookupFinds(d, "author");
    WithTermsKeeps(d, TermNames(post, "categories", categories).value, TermNames(post, "tags", tags).value,
                   Get(post, "acf", Null), "author");
  }

  /** The resolved author name reaches the frontmatter only when the post has no `author`
      key (otherwise the post's raw author id wins in `update`), and then it is the name
      looked up for the default id 0. */
  lemma AuthorKept(post: Entries, authors: map<Value, Value>, categories: Taxonomy.TermTable,
                   tags: Taxonomy.TermTable, custom: seq<(string, Taxonomy.TermTable)>,
                   postType: PostType, html2text: string -> string)
    requires FrontmatterOf(post, authors, categories, tags, custom, postType, html2text).Ok?
    requires "author" !in Keys(post) && "author" !in CustomPresent(custom, post)
    ensures Lookup(FrontmatterOf(post, authors, categories, tags, custom, postType, html2text).value, "author")
            == Some(if Int(0) in authors then authors[Int(0)] else Str("Unknown"))
  {
    var fm := Resolved(post, authors, categories, tags, postType, html2text).value;
    FrontmatterParts(post, authors, categories, tags, custom, postType, html2text);
    ResolvedAuthor(post, authors, categories, tags, postType, html2text);
    LookupFinds(post, "author");
    KeptAfterResolved(fm, post, custom, "author");
  }

  /** The keys before the custom taxonomies: the eight leading keys, then acf when the post's
      acf is truthy. */
  lemma ResolvedKeys(post: Entries, authors: map<Value, Value>, categories: Taxonomy.TermTable,
                     tags: Taxonomy.TermTable, postType: PostType, html2text: string -> string)
    requires Resolved(post, authors, categories, tags, postType, html2text).Ok?
    ensures Keys(Resolved(post, authors, categories, tags, postType, html2text).value)
            == LeadingKeys + if Truthy(Get(post, "acf", Null)) then ["acf"] else []
  {
    var author := AuthorName(post, authors).value;
    var title := TitleOf(post).value;
    var excerpt := ExcerptOf(post, html2text).value;
    DisplayFacts(post, author, title, excerpt, postType);
    WithTermsKeys(Display(post, author, title, excerpt, postType), TermNames(post, "categories", categories).value,
                  TermNames(post, "tags", tags).value, Get(post, "acf", Null));
  }

  /** The values before the custom taxonomies: the converted excerpt, the resolved term
      names, and acf when it is truthy. */
  lemma ResolvedValues(post: Entries, authors: map<Value, Value>, categories: Taxonomy.TermTable,
                       tags: Taxonomy.TermTable, postType: PostType, html2text: string -> string)
    requires Resolved(post, authors, categories, tags, postType, html2text).Ok?
    ensures var fm := Resolved(post, authors, categories, tags, postType, html2text).value;
            && Lookup(fm, "excerpt") == Some(Str(ExcerptOf(post, html2text).value))
            && Lookup(fm, "categories") == Some(TermNames(post, "categories", categories).value)
            && Lookup(fm, "tags") == Some(TermNames(post, "tags", tags).value)
            && (Truthy(Get(post, "acf", Null)) ==> Lookup(fm, "acf") == Some(Get(post, "acf", Null)))
  {
    var author := AuthorName(post, authors).value;
    var title := TitleOf(post).value;
    var excerpt := ExcerptOf(post, html2text).value;
    DisplayFacts(post, author, title, excerpt, postType);
    WithTermsValues(Display(post, author, title, excerpt, postType), TermNames(post, "categories", categories).value,
                    TermNames(post, "tags", tags).value, Get(post, "acf", Null));
  }

  /** The custom-taxonomy loop adds each taxonomy the post carries, in order, after the keys
      already there. */
  lemma {:induction false} AddCustomKeys(fm: Entries, post: Entries, custom: seq<(string, Taxonomy.TermTable)>)
    requires AddCustom(fm, post, custom).Ok?
    ensures Keys(AddCustom(fm, post, custom).value) == Merge(Keys(fm), CustomPresent(custom, post))
    decreases |custom|
  {
    if custom != [] {
      var n := |custom| - 1;
      AddCustomKeys(fm, post, custom[..n]);
      var prev := AddCustom(fm, post, custom[..n]).value;
      var present := CustomPresent(custom[..n], post);
      var name := custom[n].0;
      if name in Keys(post) {
        var names := TermNames(post, name, custom[n].1).value;
        SetKeys(prev, name, names);
        assert CustomPresent(custom, post) == present + [name];
        assert (present + [name])[..|present|] == present;
      } else {
        assert CustomPresent(custom, post) == present;
      }
    }
  }

  /** A key that is not one of the post's custom taxonomies keeps its value through the
      loop. */
  lemma {:induction false} AddCustomKeeps(fm: Entries, post: Entries, custom: seq<(string, Taxonomy.TermTable)>, key: string)
    requires AddCustom(fm, post, custom).Ok?
    requires key !in CustomPresent(custom, post)
    ensures Lookup(AddCustom(fm, post, custom).value, key) == Lookup(fm, key)
    decreases |custom|
  {
    if custom != [] {
      var n := |custom| - 1;
      var present := CustomPresent(custom[..n], post);
      assert CustomPresent(custom, post) == present + if custom[n].0 in Keys(post) then [custom[n].0] else [];
      AddCustomKeeps(fm, post, custom[..n], key);
      var prev := AddCustom(fm, post, custom[..n]).value;
      if custom[n].0 in Keys(post) {
        SetLookup(prev, custom[n].0, TermNames(post, custom[n].0, custom[n].1).value, key);
      }
    }
  }

  /** Key order of the frontmatter: title, date, author, excerpt, custom_url, type,
      categories, tags; then acf if truthy; then each custom taxonomy the post carries, in
      the taxonomies' order; then the post's remaining keys in the post's order. Keys already
      present keep their place. */
  lemma FrontmatterKeyOrder(post: Entries, authors: map<Value, Value>, categories: Taxonomy.TermTable,
                            tags: Taxonomy.TermTable, custom: seq<(string, Taxonomy.TermTable)>,
                            postType: PostType, html2text: string -> string)
    requires FrontmatterOf(post, authors, categories, tags, custom, postType, html2text).Ok?
    ensures Keys(FrontmatterOf(post, authors, categories, tags, custom, postType, html2text).value)
            == Merge(Merge(LeadingKeys + (if Truthy(Get(post, "acf", Null)) then ["acf"] else []),
                           CustomPresent(custom, post)),
                     Keys(Filtered(post)))
  {
    var fm := Resolved(post, authors, categories, tags, postType, html2text).value;
    ResolvedKeys(post, authors, categories, tags, postType, html2text);
    AddCustomKeys(fm, post, custom);
    UpdateKeys(AddCustom(fm, post, custom).value, Filtered(post));
  }

  /** The first eight keys are always the leading ones, in that order. */
  lemma LeadingKeysFirst(post: Entries, authors: map<Value, Value>, categories: Taxonomy.TermTable,
                         tags: Taxonomy.TermTable, custom: seq<(string, Taxonomy.TermTable)>,
                         postType: PostType, html2text: string -> string)
    requires FrontmatterOf(post, authors, categories, tags, custom, postType, html2text).Ok?
    ensures var ks := Keys(FrontmatterOf(post, authors, categories, tags, custom, postType, html2text).value);
            |ks| >= 8 && ks[..8] == LeadingKeys
  {
    FrontmatterKeyOrder(post, authors, categories, tags, custom, postType, html2text);
    var extra := if Truthy(Get(post, "acf", Null)) then ["acf"] else [];
    MergedPrefix(extra, CustomPresent(custom, post), Keys(Filtered(post)));
  }

  /** Keys merged after the leading ones never come before them. */
  lemma MergedPrefix(extra: seq<string>, more: seq<string>, rest: seq<string>)
    ensures |Merge(Merge(LeadingKeys + extra, more), rest)| >= 8
    ensures Merge(Merge(LeadingKeys + extra, more), rest)[..8] == LeadingKeys
  {
    var base := LeadingKeys + extra;
    var mid := Merge(base, more);
    MergeShape(base, more);
    MergeShape(mid, rest);
    assert base[..8] == LeadingKeys;
    assert mid[..8] == base[..8];
  }

  /** Every key the post carries, other than content, excerpt, guid, _links, _embedded and
      acf, ends up holding the post's own value: `update` overwrites what was resolved, so
      author becomes the raw author id and categories the raw id list. */
  lemma PostValuesWin(post: Entries, authors: map<Value, Value>, categories: Taxonomy.TermTable,
                      tags: Taxonomy.TermTable, custom: seq<(string, Taxonomy.TermTable)>,
                      postType: PostType, html2text: string -> string, key: string)
    requires DistinctKeys(post)
    requires FrontmatterOf(post, authors, categories, tags, custom, postType, html2text).Ok?
    requires key in Keys(post) && !Excluded(key)
    ensures Lookup(FrontmatterOf(post, authors, categories, tags, custom, postType, html2text).value, key)
            == Lookup(post, key)
  {
    var fm := Resolved(post, authors, categories, tags, postType, html2text).value;
    var before := AddCustom(fm, post, custom).value;
    var f := Filtered(post);
    LookupFinds(post, key);
    FilteredMembers(post);
    var i :| 0 <= i < |post| && post[i].0 == key;
    assert post[i] in f;
    var j :| 0 <= j < |f| && f[j] == post[i];
    FilteredDistinct(post);
    UpdateLookup(before, f, j);
  }

  /** A key the post does not carry (or that is excluded from the copy) keeps the value it
      had before the `update`. */
  lemma UpdateSkipsOthers(post: Entries, before: Entries, key: string)
    requires key !in Keys(post) || Excluded(key)
    ensures Lookup(UpdateAll(before, Filtered(post)), key) == Lookup(before, key)
  {
    var f := Filtered(post);
    FilteredMembers(post);
    forall j | 0 <= j < |f| ensures f[j].0 != key {
      assert f[j] in post;
      var i :| 0 <= i < |post| && post[i] == f[j];
      assert Keys(post)[i] == f[j].0;
    }
    UpdateKeeps(before, f, key);
  }

  /** The excerpt keeps its converted value (the post's own excerpt is not copied), unless a
      custom taxonomy of that name overwrote it. */
  lemma ExcerptKept(post: Entries, authors: map<Value, Value>, categories: Taxonomy.TermTable,
                    tags: Taxonomy.TermTable, custom: seq<(string, Taxonomy.TermTable)>,
                    postType: PostType, html2text: string -> string)
    requires FrontmatterOf(post, authors, categories, tags, custom, postType, html2text).Ok?
    requires "excerpt" !in CustomPresent(custom, post)
    ensures Lookup(FrontmatterOf(post, authors, categories, tags, custom, postType, html2text).value, "excerpt")
            == Some(Str(ExcerptOf(post, html2text).value))
  {
    var fm := Resolved(post, authors, categories, tags, postType, html2text).value;
    FrontmatterParts(post, authors, categories, tags, custom, postType, html2text);
    ResolvedValues(post, authors, categories, tags, postType, html2text);
    assert Excluded("excerpt");
    KeptAfterResolved(fm, post, custom, "excerpt");
  }

  /** Resolved category and tag names never survive a post that carries the key: they are
      replaced by the post's raw id list; without the key the ids default to [] and the list
      of names is empty. */
  lemma ResolvedNamesOverwritten(post: Entries, authors: map<Value, Value>, categories: Taxonomy.TermTable,
                                 tags: Taxonomy.TermTable, custom: seq<(string, Taxonomy.TermTable)>,
                                 postType: PostType, html2text: string -> string, key: string)
    requires DistinctKeys(post)
    requires FrontmatterOf(post, authors, categories, tags, custom, postType, html2text).Ok?
    requires key == "categories" || key == "tags"
    requires key !in CustomPresent(custom, post)
    ensures Lookup(FrontmatterOf(post, authors, categories, tags, custom, postType, html2text).value, key)
            == if key in Keys(post) then Lookup(post, key) else Some(List([]))
  {
    if key in Keys(post) {
      PostValuesWin(post, authors, categories, tags, custom, postType, html2text, key);
    } else {
      AbsentTermsEmpty(post, authors, categories, tags, custom, postType, html2text, key);
    }
  }

  /** Without the key, the ids default to [] and the list of names stays empty. */
  lemma AbsentTermsEmpty(post: Entries, authors: map<Value, Value>, categories: Taxonomy.TermTable,
                         tags: Taxonomy.TermTable, custom: seq<(string, Taxonomy.TermTable)>,
                         postType: PostType, html2text: string -> string, key: string)
    requires FrontmatterOf(post, authors, categories, tags, custom, postType, html2text).Ok?
    requires key == "categories" || key == "tags"
    requires key !in CustomPresent(custom, post) && key !in Keys(post)
    ensures Lookup(FrontmatterOf(post, authors, categories, tags, custom, postType, html2text).value, key)
            == Some(List([]))
  {
    var fm := Resolved(post, authors, categories, tags, postType, html2text).value;
    FrontmatterParts(post, authors, categories, tags, custom, postType, html2text);
    ResolvedValues(post, authors, categories, tags, postType, html2text);
    NoIdsNoNames(post, key, if key == "categories" then categories else tags);
    KeptAfterResolved(fm, post, custom, key);
  }

  /** A post without the key has no ids under it, so no names. */
  lemma NoIdsNoNames(post: Entries, key: string, table: Taxonomy.TermTable)
    requires key !in Keys(post)
    ensures TermNames(post, key, table) == Ok(List([]))
  {
    LookupFinds(post, key);
  }

  /** acf appears exactly when the post's acf is truthy, with the post's value. */
  lemma AcfOnlyWhenTruthy(post: Entries, authors: map<Value, Value>, categories: Taxonomy.TermTable,
                          tags: Taxonomy.TermTable, custom: seq<(string, Taxonomy.TermTable)>,
                          postType: PostType, html2text: string -> string)
    requires FrontmatterOf(post, authors, categories, tags, custom, postType, html2text).Ok?
    requires "acf" !in CustomPresent(custom, post)
    ensures var fm := FrontmatterOf(post, authors, categories, tags, custom, postType, html2text).value;
            && ("acf" in Keys(fm) <==> Truthy(Get(post, "acf", Null)))
            && (Truthy(Get(post, "acf", Null)) ==> Lookup(fm, "acf") == Some(Get(post, "acf", Null)))
  {
    var fm := Resolved(post, authors, categories, tags, postType, html2text).value;
    FrontmatterParts(post, authors, categories, tags, custom, postType, html2text);
    assert Excluded("acf");
    KeptAfterResolved(fm, post, custom, "acf");
    ResolvedAcf(post, authors, categories, tags, postType, html2text);
    LookupFinds(FrontmatterOf(post, authors, categories, tags, custom, postType, html2text).value, "acf");
  }

  /** The frontmatter is the resolved dict, through the custom-taxonomy loop, updated with
      the filtered post. */
  lemma FrontmatterParts(post: Entries, authors: map<Value, Value>, categories: Taxonomy.TermTable,
                         tags: Taxonomy.TermTable, custom: seq<(string, Taxonomy.TermTable)>,
                         postType: PostType, html2text: string -> string)
    requires FrontmatterOf(post, authors, categories, tags, custom, postType, html2text).Ok?
    ensures Resolved(post, authors, categories, tags, postType, html2text).Ok?
    ensures var fm := Resolved(post, authors, categories, tags, postType, html2text).value;
            && AddCustom(fm, post, custom).Ok?
            && FrontmatterOf(post, authors, categories, tags, custom, postType, html2text).value
               == UpdateAll(AddCustom(fm, post, custom).value, Filtered(post))
  {
  }

  /** A key that neither a custom taxonomy nor the copy of the post touches keeps its
      resolved value. */
  lemma KeptAfterResolved(fm: Entries, post: Entries, custom: seq<(string, Taxonomy.TermTable)>, key: string)
    requires AddCustom(fm, post, custom).Ok?
    requires key !in CustomPresent(custom, post) && (key !in Keys(post) || Excluded(key))
    ensures Lookup(UpdateAll(AddCustom(fm, post, custom).value, Filtered(post)), key) == Lookup(fm, key)
  {
    AddCustomKeeps(fm, post, custom, key);
    UpdateSkipsOthers(post, AddCustom(fm, post, custom).value, key);
  }

  /** Before the custom taxonomies, acf is present exactly when it is truthy. */
  lemma ResolvedAcf(post: Entries, authors: map<Value, Value>, categories: Taxonomy.TermTable,
                    tags: Taxonomy.TermTable, postType: PostType, html2text: string -> string)
    requires Resolved(post, authors, categories, tags, postType, html2text).Ok?
    ensures Lookup(Resolved(post, authors, categories, tags, postType, html2text).value, "acf")
            == if Truthy(Get(post, "acf", Null)) then Some(Get(post, "acf", Null)) else None
  {
    var fm := Resolved(post, authors, categories, tags, postType, html2text).value;
    ResolvedKeys(post, authors, categories, tags, postType, html2text);
    ResolvedValues(post, authors, categories, tags, postType, html2text);
    LeadingKeysFresh();
    LookupFinds(fm, "acf");
  }

  /** The title written to the file: a post whose title is `{'rendered': ...}` overwrites the
      resolved title with that dict in `update`, and save_as_markdown unwraps it again. */
  lemma TitleRoundTrip(post: Entries, authors: map<Value, Value>, categories: Taxonomy.TermTable,
                       tags: Taxonomy.TermTable, custom: seq<(string, Taxonomy.TermTable)>,
                       postType: PostType, useMarkdown: bool, html2text: string -> string,
                       domainUrl: string, yaml: Entries -> string, e: Entries)
    requires DistinctKeys(post)
    requires Lookup(post, "title") == Some(Dict(e))
    requires ConvertSpec(post, authors, categories, tags, custom, postType, useMarkdown, html2text, domainUrl, yaml).Ok?
    ensures Lookup(ConvertSpec(post, authors, categories, tags, custom, postType, useMarkdown, html2text, domainUrl, yaml).value.frontmatter, "title")
            == Some(Get(e, "rendered", Str("Untitled")))
  {
    var fm := FrontmatterOf(post, authors, categories, tags, custom, postType, html2text).value;
    ConvertSpecFrontmatter(post, authors, categories, tags, custom, postType, useMarkdown, html2text, domainUrl, yaml);
    LookupFinds(post, "title");
    PostValuesWin(post, authors, categories, tags, custom, postType, html2text, "title");
    NormalizedTitle(fm, e);
  }

  /** The frontmatter of a successful conversion is the built dict with its title
      normalised. */
  lemma ConvertSpecFrontmatter(post: Entries, authors: map<Value, Value>, categories: Taxonomy.TermTable,
                               tags: Taxonomy.TermTable, custom: seq<(string, Taxonomy.TermTable)>,
                               postType: PostType, useMarkdown: bool, html2text: string -> string,
                               domainUrl: string, yaml: Entries -> string)
    requires ConvertSpec(post, authors, categories, tags, custom, postType, useMarkdown, html2text, domainUrl, yaml).Ok?
    ensures FrontmatterOf(post, authors, categories, tags, custom, postType, html2text).Ok?
    ensures ConvertSpec(post, authors, categories, tags, custom, postType, useMarkdown, html2text, domainUrl, yaml).value.frontmatter
            == NormalizeTitle(FrontmatterOf(post, authors, categories, tags, custom, postType, html2text).value)
  {
  }

  /** A dict title is unwrapped to its `rendered` entry. */
  lemma NormalizedTitle(fm: Entries, e: Entries)
    requires Lookup(fm, "title") == Some(Dict(e))
    ensures Lookup(NormalizeTitle(fm), "title") == Some(Get(e, "rendered", Str("Untitled")))
  {
    NormalizeTitleEffect(fm, "title");
  }
}
