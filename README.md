# wp-import: a verified model of autoStattic.py

`autoStattic.py` migrates a WordPress site to Markdown files. It reads posts, pages, authors,
categories, tags and custom taxonomies from the site's REST API. Each post or page becomes a
file `content/{type}s/{slug}.md`: a YAML frontmatter block, then the post body converted to
Markdown. Structured Gutenberg blocks in the body are kept as raw HTML.

This project models the decision logic under the HTTP, YAML and file plumbing, and proves
what it does:

- **Pagination** (`pagination.dfy`, module `Pagination`). `fetch_wordpress_data` requests
  pages 1, 2, 3, … in order. It stops at the first empty, short or failed page and keeps
  what it gathered. The server is a finite list of responses; every page past its end
  answers with an empty array.
- **Term tables** (`taxonomy.dfy`, module `Taxonomy`). This covers three pieces:
  - the `{id: {'id', 'name'}}` comprehension of `fetch_terms_by_taxonomy`;
  - `map_term_ids_to_names`, with its `Unknown (ID: n)` placeholder;
  - `fetch_custom_taxonomies`, with its filter on `category` and `post_tag` and its
    catch-all `{}`.
- **Block split** (`blocks.dfy`, module `Blocks`). This is
  `re.split(r'(<div[^>]*wp-block[^>]*>.*?</div>)', html, flags=re.DOTALL)`, modelled as a
  leftmost, non-overlapping scan with an explicit matcher for the pattern.
- **Rendering** (`render.dfy`, module `Render`). The loop that trims every segment, or
  converts it with html2text, and appends `"\n\n"`.
- **Media links** (`media.dfy`, module `Media`). The `re.sub` of `process_media_links`,
  including the lazy groups and the `.` wildcards of its pattern. It also keeps the literal
  backslashes that the replacement template `!\[\1\](\3)` leaves in the output.
- **Frontmatter** (`frontmatter.dfy`, module `Frontmatter`). This covers:
  - Python's insertion-ordered dict, with item assignment and `update`, as the class
    `OrderedDict` over a pure `Set`/`UpdateAll` specification;
  - the title normalisation and file layout of `save_as_markdown`.
- **Conversion** (`convert.dfy`, module `Convert`). `convert_post_to_md` from the slug to
  the saved text. It covers the order of frontmatter keys and the overwriting `update`.
  The exceptions it raises on a malformed post object (a `content` or `title` that is not a
  dict, a non-string slug or body, an unhashable author or term id, a term list that cannot
  be iterated) are `Result` errors. A post that is not a JSON object is not representable.
- **Support modules.** `base.dfy` holds Option, Result and the Python errors. `text.dfy`
  holds `str.strip`, `str.find`, `str.replace` and `str(int)`. `values.dfy` holds decoded
  JSON values, truthiness, `dict.get`, hashing, iteration and `str()`.

External behaviour is passed in as parameters:

- the html2text converter, as `string -> string`;
- the YAML serialiser, as `Entries -> string`;
- each HTTP endpoint's answers, as a list of page responses;
- the module-level `domain_url`.

Nothing is assumed about what the converter or the serialiser return.

Behaviour of the code a reader may not expect:

- An empty body is split by `re.split` into one empty segment, and that segment still
  contributes `"\n\n"` (`Render.EmptyBody`). It is not an empty sequence.
- The media rewrite produces `!\[alt\](path)` with backslashes (`Media.LinkRewrite`), not
  `![alt](path)`.
- A connection error raised by `requests.get` (line 35) is outside the `try`, so it does
  not stop pagination gracefully. It propagates, and it is left out here.
- In `fetch_custom_taxonomies`, one malformed term record in any custom taxonomy makes the
  whole result `{}`. The inner `except requests.exceptions.HTTPError` never fires, because
  `fetch_wordpress_data` already catches HTTP errors. A failed page ends that taxonomy's
  fetch and keeps the terms of the pages before it, so the table is empty only when the
  first page fails.
- The resolved author name and the resolved category and tag names are overwritten by
  `update` with the post's raw values whenever the post carries those keys
  (`Convert.PostValuesWin`, `Convert.ResolvedNamesOverwritten`).

## Model

| member | source | states |
|---|---|---|
| Pagination.FetchWordPressData | autoStattic.py:28-64 | the loop requests pages 1, 2, …, n consecutively and returns exactly the data and request count of the recursive fetch |
| Pagination.Fetch | autoStattic.py:28-64 | the fetch ends after at least one request and at most one past the server's last listed page |
| Pagination.FetchFromBounds | autoStattic.py:33-62 | from page p on, the fetch stops at p or later, never more than one past the last listed page, and a page past the end stops at once with nothing added |
| Pagination.FetchStopsExactlyAt | autoStattic.py:33-62 | the fetch stops at page `last` if and only if every earlier page was non-empty with at least `per_page` items and page `last` is not; the data is then the in-order concatenation of those pages plus the last page's contribution |
| Pagination.FetchFromShape | autoStattic.py:42-50 | from any page on, the loop stops at the first page that does not continue, and its data is the continuing pages' items in order plus the stopping page's contribution |
| Pagination.FetchFromStopsAt | autoStattic.py:42-50 | conversely, if pages page..last-1 continue and page last does not, the fetch from page returns exactly those items and stops at last |
| Pagination.FullPagesBeforeLast | autoStattic.py:46-50 | every page appended before the last one was a successful page of at least `per_page` items |
| Pagination.FailureKeepsEarlierItems | autoStattic.py:52-60 | a failed page ends the fetch, keeping the earlier pages' items and adding nothing from the failure |
| Pagination.EmptyPageAddsNothing | autoStattic.py:42-44 | an empty page ends the fetch without adding anything |
| Pagination.ShortPageIsAppendedThenStops | autoStattic.py:46-50 | a non-empty page shorter than `per_page` is appended and then ends the fetch |
| Pagination.ThreePagesExample | autoStattic.py:28-64 | pages of 100, 100 and 42 items with per_page 100 give all 242 items in order after 3 requests |
| Pagination.EmptyFirstPage | autoStattic.py:42-44 | an empty first page gives no items after one request |
| Taxonomy.TermOf | autoStattic.py:167 | a term record is accepted exactly when it is a dict with `id` and `name` and a hashable id, and the term then holds those two values; a dict missing either key raises `KeyError` |
| Taxonomy.ParseTerms | autoStattic.py:167 | parsing succeeds exactly when every record is a valid term, and then gives one term per record in order |
| Taxonomy.TableOfKeys | autoStattic.py:167 | the term table's keys are exactly the ids of the fetched terms |
| Taxonomy.TableOfLastWins | autoStattic.py:167 | each id maps to the last term carrying it: a later duplicate id wins |
| Taxonomy.TermsById | autoStattic.py:163-167 | the comprehension succeeds exactly when every record is a valid term, and its keys are then exactly the records' ids |
| Taxonomy.FetchTermsByTaxonomy | autoStattic.py:163-167 | fetching a taxonomy's terms fails exactly when some fetched item is not a valid term record |
| Taxonomy.NameOf | autoStattic.py:68 | one id's name fails exactly when the id is unhashable, and a known id gives its term's name |
| Taxonomy.MapTermIdsToNames | autoStattic.py:66-68 | one name per id, in order; a known id gives its term's name, an unknown id gives `Unknown (ID: n)` and never fails; it fails exactly when some id is unhashable |
| Taxonomy.PlaceholderExample | autoStattic.py:68 | ids [5, 99] with only 5 known give ['News', 'Unknown (ID: 99)'] |
| Taxonomy.CustomNamesMembers | autoStattic.py:179 | the custom names are exactly the listing's keys other than `category` and `post_tag`, and there are no more of them than listing entries |
| Taxonomy.CustomNamesInOrder | autoStattic.py:179 | the filter works entry by entry in listing order: an entry contributes its key, in place, exactly when the key is not built in |
| Taxonomy.CustomTables | autoStattic.py:182-191 | the tables succeed exactly when each taxonomy's table does, and then pair each name, in order, with its table |
| Taxonomy.FetchCustomTaxonomies | autoStattic.py:169-200 | the loop over the custom names returns what the listing specification gives, including `{}` on a failed or non-dict listing and on any malformed term |
| Taxonomy.CustomTaxonomiesShape | autoStattic.py:169-200 | the result never holds `category` or `post_tag`; it is either empty or holds every custom taxonomy of the listing in listing order |
| Blocks.MatchIsBlock | autoStattic.py:100 | every match of the block pattern is a block: `<div`, an opening tag up to its first `>` that contains `wp-block`, and a body ending at the first `</div>` after it |
| Blocks.BlockIsMatch | autoStattic.py:100 | conversely, a block starting at i is exactly what the pattern matches at i |
| Blocks.MatchAt | autoStattic.py:100 | a match of the block pattern at i ends after i and inside the text |
| Blocks.SplitConcat | autoStattic.py:100 | the segments concatenate back to the original HTML, and there are 2k+1 of them |
| Blocks.SplitSegments | autoStattic.py:100 | each segment sits at its offset in the HTML; odd segments are the leftmost non-overlapping matches, and no match starts inside an even segment |
| Blocks.OddSegmentIsBlock | autoStattic.py:100 | every odd segment is a block: its opening tag contains `wp-block` and its body holds no earlier `</div>` |
| Blocks.SplitWithoutMatch | autoStattic.py:100 | with no match from some index on, the rest of the text is one segment |
| Render.ConvertBlocks | autoStattic.py:103-113 | the accumulation loop yields, in segment order, each segment's piece followed by `"\n\n"` |
| Render.Piece | autoStattic.py:106-113 | each segment's piece neither starts nor ends with whitespace, and a raw or unconverted piece is no longer than its segment |
| Render.RenderedEnds | autoStattic.py:103-113 | every segment adds at least `"\n\n"`, and a non-empty rendering ends with `"\n\n"` |
| Render.ConvertedBody | autoStattic.py:96-113 | a converted body, even of empty HTML, is at least two characters long and ends with `"\n\n"` |
| Render.RenderedAppend | autoStattic.py:103-113 | rendering distributes over concatenation of segment lists: each segment contributes independently of its neighbours |
| Render.RenderedOne | autoStattic.py:104-113 | a single segment, even an empty one, contributes its piece and exactly one `"\n\n"` |
| Render.ConverterSeesOnlyPlainSegments | autoStattic.py:106-111 | the converter is only consulted, in Markdown mode, on segments without `wp-block`: converters agreeing there render identically |
| Render.BlockVerbatim | autoStattic.py:106-107 | a block from the split is emitted byte for byte, since it contains `wp-block` and strip leaves it whole |
| Render.MatchHasMarker | autoStattic.py:106 | a text in which the block pattern matches contains `wp-block` |
| Render.UnmarkedBodyConvertedWhole | autoStattic.py:100-113 | a body without `wp-block` is one segment, converted whole and followed by `"\n\n"` |
| Render.EmptyBody | autoStattic.py:96-113 | an empty body still renders one piece and one `"\n\n"` |
| Media.MatchShape | autoStattic.py:87 | every match is `![`, an alt text without newlines, `](https://example`, any non-newline character, `com/wp-content/uploads/`, a path without `)` or newlines, and `)`; the alt text ends at the first place the rest matches |
| Media.MatchAt | autoStattic.py:87 | a match found at i fits the text at i: its groups lie in order inside the text |
| Media.MediaTokensCover | autoStattic.py:87 | the rewrite's scan covers the input exactly in order, so text outside the matches is unchanged |
| Media.TokenAtOffset | autoStattic.py:87 | the k-th token of a scan from i is the token the matcher gives at the offset where the earlier tokens' originals end |
| Media.MediaScan | autoStattic.py:85-88 | conversely to the cover, the rewrite's k-th token sits at offset o of the content and is the match of the pattern there when there is one, and otherwise the single character there |
| Media.MediaGroups | autoStattic.py:87 | every match found by the rewrite has the pattern's text around its groups, with no newline in alt or path and no `)` in the path |
| Media.LinkRewrite | autoStattic.py:87 | `![alt](https://example.com/wp-content/uploads/path)` becomes `!\[alt\](path)`, backslashes kept, for every alt text that runs whole (the lazy group does not stop at an earlier `](`) |
| Media.PlainAltRunsWhole | autoStattic.py:87 | an alt text without `]` always runs whole |
| Media.PlainLinkRewrite | autoStattic.py:87 | so a link whose alt text has no `]` is rewritten to `!\[alt\](path)` |
| Media.LinkTextTokens | autoStattic.py:87 | a one-link text whose alt text runs whole is scanned as that single match, with its alt, separator and path groups |
| Media.MediaBaseUrlIgnored | autoStattic.py:85-88 | the `media_base_url` argument has no effect on the result |
| Text.Strip | autoStattic.py:107 | strip returns the middle slice of its input with only whitespace removed from both ends, and the result neither starts nor ends with whitespace |
| Text.ReplaceChar | autoStattic.py:93 | replace keeps the length and replaces exactly the occurrences of one character |
| Values.Get | autoStattic.py:119 | `dict.get` gives the default for an absent key, and on a dict with distinct keys the value stored under a present key |
| Values.GetOn | autoStattic.py:96 | `.get` succeeds exactly on a dict, and then gives that dict's `get` of the key |
| Values.Iterate | autoStattic.py:68 | iteration succeeds exactly on lists, strings and dicts; it visits a list's items, a string's one-character strings and a dict's keys, in order |
| Frontmatter.SetKeys | autoStattic.py:136-147 | item assignment keeps the key order when the key exists and appends it otherwise |
| Frontmatter.SetAt | autoStattic.py:136-147 | assigning an existing key replaces its first entry in place |
| Frontmatter.SetNew | autoStattic.py:136-147 | assigning a new key appends it at the end |
| Frontmatter.SetSame | autoStattic.py:136-147 | assigning a key the value it already holds changes nothing |
| Frontmatter.SetLookup | autoStattic.py:136-147 | after assignment the key holds the new value and every other key its old one |
| Frontmatter.SetDistinct | autoStattic.py:136-147 | assignment keeps the keys distinct |
| Frontmatter.UpdateKeys | autoStattic.py:151 | after `update` the old keys keep their places and new keys follow in the other dict's order |
| Frontmatter.UpdateLookup | autoStattic.py:151 | after `update` a key of the other dict holds that dict's value |
| Frontmatter.UpdateKeeps | autoStattic.py:151 | after `update` a key the other dict lacks holds what it held |
| Frontmatter.UpdateDistinct | autoStattic.py:151 | `update` keeps the keys distinct |
| Frontmatter.OrderedDict.SetItem | autoStattic.py:136-147 | the in-place assignment leaves the dict equal to the pure `Set` of its old items |
| Frontmatter.OrderedDict.Update | autoStattic.py:151 | the in-place `update` leaves the dict equal to the pure `UpdateAll` of its old items |
| Frontmatter.OrderedDict.FromItems | autoStattic.py:126-133 | a dict display with distinct keys holds exactly its items in order |
| Frontmatter.OrderedDict.GetItem | autoStattic.py:73 | `get` returns the stored value, or the default when the key is absent |
| Frontmatter.NormalizeTitleEffect | autoStattic.py:73-76 | a dict title becomes its `rendered` entry (default 'Untitled'), a missing title becomes 'Untitled', the key keeps its place and no other key changes |
| Frontmatter.PlainTitleUnchanged | autoStattic.py:73-76 | a title that is not a dict leaves the frontmatter entirely unchanged |
| Frontmatter.FileTextParts | autoStattic.py:79-83 | the file text is `---\n`, the YAML, `---\n\n`, then the content, and it splits back into those parts |
| Frontmatter.SaveAsMarkdown | autoStattic.py:70-83 | the caller's dict is left title-normalised and the text is the file layout of its YAML and the content |
| Convert.SlugOf | autoStattic.py:92-93 | a successful slug contains no `/` |
| Convert.SlugCases | autoStattic.py:92-93 | the slug is the post's slug when present, otherwise `{type}-{id}`, with `/` replaced by `-`; a non-string slug fails |
| Convert.PathInTypeDirectory | autoStattic.py:154-157 | the path is `content/{type}s/` then the slug and `.md`, with no further `/` |
| Convert.HtmlOf | autoStattic.py:96 | a missing `content` gives the empty body; a `content` that is not a dict raises `AttributeError`; the body is read exactly when `content` is a dict whose `rendered` entry is a string |
| Convert.TitleOf | autoStattic.py:123 | the title is read exactly when `title` is a dict (or absent), and a missing title gives 'Untitled' |
| Convert.ExcerptOf | autoStattic.py:130 | the excerpt is stripped at both ends, and a missing excerpt is the stripped conversion of the empty string |
| Convert.TermNames | autoStattic.py:136-137 | the names, when resolved, are a list with one entry per id the post's term key iterates over |
| Convert.RenderContent | autoStattic.py:96-116 | the body is rendered and media-rewritten exactly when the HTML can be read, and otherwise the read's error is returned |
| Convert.AuthorName | autoStattic.py:119-120 | the author lookup fails exactly when the author id (default 0) is unhashable, and otherwise gives the author table's entry for it, or 'Unknown' |
| Convert.ResolvedAuthor | autoStattic.py:119-133 | the resolved author name is what the frontmatter display holds under `author` |
| Convert.AuthorKept | autoStattic.py:119-151 | a post without an `author` key (and no custom taxonomy of that name) keeps the name of author 0, or 'Unknown', in its final frontmatter |
| Convert.FilteredMembers | autoStattic.py:150 | the filter keeps exactly the post's items whose keys are not content, excerpt, guid, _links, _embedded or acf |
| Convert.FilteredInOrder | autoStattic.py:150 | the filter works item by item in post order: an item is kept, in place, exactly when its key is not excluded |
| Convert.FilteredDistinct | autoStattic.py:150 | the filtered items keep the post's keys distinct |
| Convert.ConvertPostToMd | autoStattic.py:90-160 | the whole conversion (slug, split, render, media rewrite, frontmatter, save) returns exactly the conversion specification, errors included |
| Convert.BuildFrontmatter | autoStattic.py:126-151 | the built dict, or the error raised, is that of the frontmatter specification |
| Convert.ResolvedDict | autoStattic.py:118-142 | the dict before the custom taxonomies, or the error raised, is that of its specification |
| Convert.AssignTerms | autoStattic.py:135-142 | the term and acf assignments leave the dict as the specification says, or return its error |
| Convert.DisplayFacts | autoStattic.py:126-133 | the display has the six leading keys once each and holds the converted excerpt |
| Convert.DisplayKeys | autoStattic.py:126-133 | the display's keys are exactly title, date, author, excerpt, custom_url, type in that order |
| Convert.WithTermsKeys | autoStattic.py:135-142 | after the assignments the keys are the eight leading keys, then acf only if it is truthy |
| Convert.WithTermsValues | autoStattic.py:135-142 | the assignments store the names and acf and leave the excerpt alone |
| Convert.WithTermsKeeps | autoStattic.py:135-142 | every key other than categories, tags and acf keeps its value through the assignments |
| Convert.ResolvedKeys | autoStattic.py:126-142 | before the custom taxonomies the keys are the eight leading keys, then acf if truthy |
| Convert.ResolvedValues | autoStattic.py:126-142 | before the custom taxonomies the dict holds the converted excerpt, the resolved names and a truthy acf |
| Convert.AddCustomKeys | autoStattic.py:144-147 | the custom-taxonomy loop appends each taxonomy the post carries, in taxonomy order, after the keys already there |
| Convert.AddCustomKeeps | autoStattic.py:144-147 | keys that are not custom taxonomies of the post keep their values through the loop |
| Convert.AddCustomErr | autoStattic.py:144-147 | once the loop fails on a prefix of the taxonomies, the whole loop fails with that error |
| Convert.CustomPresentMembers | autoStattic.py:145-146 | the taxonomies written are post keys, at most one per taxonomy, and every taxonomy the post carries is written |
| Convert.CustomPresentInOrder | autoStattic.py:145-146 | the loop works taxonomy by taxonomy in order: a taxonomy is written, in place, exactly when the post carries its key |
| Convert.FrontmatterKeyOrder | autoStattic.py:126-151 | the key order is the eight leading keys, acf if truthy, the post's custom taxonomies in order, then the post's remaining keys in post order |
| Convert.FrontmatterParts | autoStattic.py:126-151 | a built frontmatter is the resolved dict, then the custom taxonomies, then `update` with the filtered post |
| Convert.ConvertSpecFrontmatter | autoStattic.py:90-160 | a successful conversion saves the title-normalised frontmatter of the frontmatter specification |
| Convert.LeadingKeysFirst | autoStattic.py:126-137 | the first eight keys are always title, date, author, excerpt, custom_url, type, categories, tags |
| Convert.MergedPrefix | autoStattic.py:144-151 | keys merged after the leading ones never come before them |
| Convert.PostValuesWin | autoStattic.py:149-151 | every post key other than the excluded ones ends up holding the post's own value |
| Convert.UpdateSkipsOthers | autoStattic.py:149-151 | a key the post lacks, or an excluded key, keeps its value through `update` |
| Convert.ExcerptKept | autoStattic.py:130 | the excerpt keeps its converted value, unless a custom taxonomy of that name replaced it |
| Convert.ResolvedNamesOverwritten | autoStattic.py:135-151 | categories and tags end up as the post's raw values when the post has them, and as an empty list when it does not |
| Convert.AbsentTermsEmpty | autoStattic.py:136-137 | without the key the ids default to [] and the names stay empty |
| Convert.NoIdsNoNames | autoStattic.py:136-137 | a post without the key gives an empty list of names |
| Convert.AcfOnlyWhenTruthy | autoStattic.py:139-142 | acf is a key exactly when the post's acf is truthy in Python's sense (`Values.Truthy`: None, False, 0 and empty strings, lists and dicts are false), and then holds the post's value |
| Convert.ResolvedAcf | autoStattic.py:139-142 | before the custom taxonomies, acf is present exactly when truthy |
| Convert.TitleRoundTrip | autoStattic.py:73-76 | a post title `{'rendered': …}` is copied over the resolved title by `update` and unwrapped again on save |
| Convert.NormalizedTitle | autoStattic.py:74-76 | a dict title is unwrapped to its `rendered` entry |

## Left out

- HTTP transport: `requests.get`, status checks and JSON decoding are page responses given
  as input. A connection error raised by `requests.get` outside the `try` (lines 35 and 172)
  propagates in the source and is not modelled.
- A server that never ends: the page source is a finite list, and pages past its end answer
  `[]`. An endless source would make the loop diverge.
- JSON bodies that are not arrays reaching `data.extend` (line 46): a page is a list of
  items.
- html2text and its module-level settings (lines 17-26) are an uninterpreted parameter.
  `yaml.dump` is a parameter from the dict's items to text. Neither output is described.
- Filesystem work: creating `content/` at import, `os.makedirs`, and opening and writing the
  file. `SaveAsMarkdown` returns the text it would write, and the path is returned as a
  string. Paths use `/`, as `os.path.join` does on POSIX.
- Progress output and logging (`tqdm.write`, `print`), argument parsing, timing, and the
  batch driver `save_posts_and_pages`, which only sequences fetches and conversions.
- The module global `domain_url` (line 116) is defined only under `__main__`. The model
  passes it as a parameter; the rewrite ignores it anyway.
- The dead inner `except requests.exceptions.HTTPError` of `fetch_custom_taxonomies`
  (lines 187-189): nothing inside it can raise that error.
- Python key equality across types: `True == 1` and `1.0 == 1` collide as dict keys in
  Python. The model's values compare structurally, and JSON floats are not modelled.
- Values.Repr: strings inside a list or dict are shown between single quotes, without
  Python's switch to double quotes for a string holding `'` (`repr("it's")` is `"it's"`) and
  without its escaping of control characters. Placeholders never reach this case, since only
  hashable ids are looked up. The one affected text is the slug fallback `{type}-{id}`
  (line 92) for a post whose `id` is a list or dict.
- A post that is not a JSON object: `post.get` at line 92 raises `AttributeError` on it. The
  model's post is a list of key-value entries, so such a post cannot be written down.
- Dictionaries with a repeated key: `Lookup` and `Get` take the first entry, while
  `json.loads` keeps the last. Dictionaries decoded from JSON have distinct keys, and the
  lemmas about a post's own values (`Convert.PostValuesWin`, `Convert.TitleRoundTrip`,
  `Convert.ResolvedNamesOverwritten`) require `DistinctKeys` of the post.
- Python exceptions are collapsed to four kinds (`KeyError`, `TypeError`, `AttributeError`,
  and non-string converter input); messages are not modelled.
