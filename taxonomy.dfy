/** The term tables: fetch_terms_by_taxonomy (autoStattic.py:163-167),
    map_term_ids_to_names (autoStattic.py:66-68) and fetch_custom_taxonomies
    (autoStattic.py:169-200). */
module Taxonomy {

  import opened Base
  import opened Text
  import opened Values
  import Pagination

  /** The `{'id': ..., 'name': ...}` record kept for one term. */
  datatype Term = Term(id: Value, name: Value)

  /** A term table, keyed by term id. */
  type TermTable = map<Value, Term>

  /** One comprehension step: `term['id']`, then `term['name']`, then hashing the id as the
      new key. Subscripting anything but a dictionary with a string raises TypeError. */
  function TermOf(record: Value): (r: Result<Term>)
    ensures r.Ok? ==> record.Dict? && Hashable(r.value.id)
    ensures r.Ok? ==> Lookup(record.entries, "id") == Some(r.value.id)
                      && Lookup(record.entries, "name") == Some(r.value.name)
    ensures (&& record.Dict? && Lookup(record.entries, "id").Some? && Lookup(record.entries, "name").Some?
             && Hashable(Lookup(record.entries, "id").value)) ==> r.Ok?
    ensures (record.Dict? && (Lookup(record.entries, "id").None? || Lookup(record.entries, "name").None?))
            ==> r == Err(KeyError)
  {
    if !record.Dict? then Err(TypeError)
    else match (Lookup(record.entries, "id"), Lookup(record.entries, "name"))
      case (None, _) => Err(KeyError)
      case (Some(_), None) => Err(KeyError)
      case (Some(id), Some(name)) => if Hashable(id) then Ok(Term(id, name)) else Err(TypeError)
  }

  /** The records made into terms in order, or the error the first malformed one raises. */
  function ParseTerms(records: seq<Value>): (r: Result<seq<Term>>)
    ensures r.Ok? <==> forall i :: 0 <= i < |records| ==> TermOf(records[i]).Ok?
    ensures r.Ok? ==> |r.value| == |records|
    ensures r.Ok? ==> forall i :: 0 <= i < |records| ==> TermOf(records[i]) == Ok(r.value[i])
  {
    if records == [] then Ok([])
    else
      var first :- TermOf(records[0]);
      var rest :- ParseTerms(records[1..]);
      Ok([first] + rest)
  }

  /** The table filled in term order: a later term with the same id replaces an earlier one. */
  function TableOf(terms: seq<Term>): TermTable {
    if terms == [] then map[] else TableOf(terms[..|terms| - 1])[terms[|terms| - 1].id := terms[|terms| - 1]]
  }

  /** `{term['id']: {'id': term['id'], 'name': term['name']} for term in terms}`. The keys
      and values of all records are evaluated before any insertion can fail, so parsing
      every record first and filling the table afterwards raises the same first error. */
  function TermsById(records: seq<Value>): (r: Result<TermTable>)
    ensures r.Ok? <==> forall i :: 0 <= i < |records| ==> TermOf(records[i]).Ok?
    ensures r.Ok? ==> r.value.Keys == set i | 0 <= i < |records| :: TermOf(records[i]).value.id
  {
    var terms :- ParseTerms(records);
    TableOfKeys(terms);
    assert (set i | 0 <= i < |records| :: TermOf(records[i]).value.id)
        == (set i | 0 <= i < |terms| :: terms[i].id);
    Ok(TableOf(terms))
  }

  /** Term i carries an id that no later term repeats. */
  predicate LastWithId(terms: seq<Term>, i: nat)
    requires i < |terms|
  {
    forall j :: i < j < |terms| ==> terms[j].id != terms[i].id
  }

  /** The table's keys are exactly the ids of the terms. */
  lemma {:induction false} TableOfKeys(terms: seq<Term>)
    ensures TableOf(terms).Keys == set i | 0 <= i < |terms| :: terms[i].id
  {
    if terms != [] {
      var n := |terms| - 1;
      var init := terms[..n];
      TableOfKeys(init);
      assert TableOf(terms).Keys == TableOf(init).Keys + {terms[n].id};
      var all := set i | 0 <= i < |terms| :: terms[i].id;
      var pre := set i | 0 <= i < |init| :: init[i].id;
      forall x | x in all ensures x in pre + {terms[n].id} {
        var i :| 0 <= i < |terms| && terms[i].id == x;
        if i < n { assert init[i].id == x; }
      }
      forall x | x in pre ensures x in all {
        var i :| 0 <= i < |init| && init[i].id == x;
        assert terms[i].id == x;
      }
      assert all == pre + {terms[n].id};
    }
  }

  /** Each id maps to the last term that carries it: a later duplicate wins. */
  lemma {:induction false} TableOfLastWins(terms: seq<Term>, i: nat)
    requires i < |terms| && LastWithId(terms, i)
    ensures terms[i].id in TableOf(terms) && TableOf(terms)[terms[i].id] == terms[i]
  {
    var n := |terms| - 1;
    if i < n {
      var init := terms[..n];
      assert terms[n].id != terms[i].id;
      assert init[i] == terms[i];
      assert LastWithId(init, i) by {
        forall j | i < j < |init| ensures init[j].id != init[i].id {
          assert terms[j].id != terms[i].id;
        }
      }
      TableOfLastWins(init, i);
    }
  }

  /** `terms.get(term_id, {'id': term_id, 'name': f"Unknown (ID: {term_id})"})['name']`. */
  function NameOf(id: Value, terms: TermTable): (r: Result<Value>)
    ensures r.Ok? <==> Hashable(id)
    ensures r.Ok? && id in terms ==> r.value == terms[id].name
  {
    if !Hashable(id) then Err(TypeError)
    else if id in terms then Ok(terms[id].name)
    else Ok(Str("Unknown (ID: " + PyStr(id) + ")"))
  }

  /** map_term_ids_to_names: one name per id, same order; a missing id never fails and gives
      the placeholder that names it; only an unhashable id raises. */
  function MapTermIdsToNames(ids: seq<Value>, terms: TermTable): (r: Result<seq<Value>>)
    ensures r.Ok? <==> forall i :: 0 <= i < |ids| ==> Hashable(ids[i])
    ensures r.Ok? ==> |r.value| == |ids|
    ensures r.Ok? ==> forall i :: 0 <= i < |ids| ==>
              r.value[i] == if ids[i] in terms then terms[ids[i]].name
                            else Str("Unknown (ID: " + PyStr(ids[i]) + ")")
  {
    if ids == [] then Ok([])
    else
      var first :- NameOf(ids[0], terms);
      var rest :- MapTermIdsToNames(ids[1..], terms);
      Ok([first] + rest)
  }

  /** `map_term_ids_to_names([5, 99], {5: {'id': 5, 'name': 'News'}})` gives
      `['News', 'Unknown (ID: 99)']`. */
  lemma PlaceholderExample()
    ensures MapTermIdsToNames([Int(5), Int(99)], map[Int(5) := Term(Int(5), Str("News"))])
            == Ok([Str("News"), Str("Unknown (ID: 99)")])
  {
    var terms := map[Int(5) := Term(Int(5), Str("News"))];
    var r := MapTermIdsToNames([Int(5), Int(99)], terms);
    assert Digits(99) == Digits(9) + [DigitChar(9)] == "99";
    assert PyStr(Int(99)) == "99";
    assert Int(99) !in terms;
    assert r.Ok? && |r.value| == 2;
    assert r.value[0] == Str("News");
    assert r.value[1] == Str("Unknown (ID: 99)");
    assert r.value == [Str("News"), Str("Unknown (ID: 99)")];
  }

  /** fetch_terms_by_taxonomy: every item fetched from the endpoint (100 per page) made into
      a term table. */
  function FetchTermsByTaxonomy(server: seq<Pagination.Response<Value>>): (r: Result<TermTable>)
    ensures var items := Pagination.Fetch(server, 100).data;
            r.Ok? <==> forall i :: 0 <= i < |items| ==> TermOf(items[i]).Ok?
  {
    TermsById(Pagination.Fetch(server, 100).data)
  }

  /** The built-in taxonomies that are not custom. */
  predicate BuiltIn(name: string) {
    name == "category" || name == "post_tag"
  }

  /** `{key: val for key, val in taxonomies.items() if key not in ['category', 'post_tag']}`,
      keeping its keys in listing order. */
  function CustomTaxonomyNames(listing: seq<(string, Value)>): seq<string> {
    if listing == [] then []
    else (if BuiltIn(listing[0].0) then [] else [listing[0].0]) + CustomTaxonomyNames(listing[1..])
  }

  /** The names are exactly the listing's keys that are not built in, none more than once
      per listing entry. */
  lemma {:induction false} CustomNamesMembers(listing: seq<(string, Value)>)
    ensures forall n :: n in CustomTaxonomyNames(listing) <==> n in Keys(listing) && !BuiltIn(n)
    ensures |CustomTaxonomyNames(listing)| <= |listing|
  {
    if listing != [] {
      CustomNamesMembers(listing[1..]);
      assert Keys(listing) == [listing[0].0] + Keys(listing[1..]);
    }
  }

  /** The names of a concatenation are the names of its parts, concatenated. */
  lemma {:induction false} CustomNamesAppend(a: seq<(string, Value)>, b: seq<(string, Value)>)
    ensures CustomTaxonomyNames(a + b) == CustomTaxonomyNames(a) + CustomTaxonomyNames(b)
  {
    if a != [] {
      CustomNamesAppend(a[1..], b);
      var first := if BuiltIn(a[0].0) then [] else [a[0].0];
      var x, y := CustomTaxonomyNames(a[1..]), CustomTaxonomyNames(b);
      assert CustomTaxonomyNames(a + b) == first + (x + y) by {
        assert (a + b)[0] == a[0] && (a + b)[1..] == a[1..] + b;
      }
      ConcatAssoc(first, x, y);
    } else {
      assert a + b == b;
    }
  }

  /** The names keep listing order: entry e contributes its key exactly where it stands,
      unless it is built in. */
  lemma CustomNamesInOrder(a: seq<(string, Value)>, e: (string, Value), b: seq<(string, Value)>)
    ensures CustomTaxonomyNames(a + [e] + b)
            == CustomTaxonomyNames(a) + (if BuiltIn(e.0) then [] else [e.0]) + CustomTaxonomyNames(b)
  {
    CustomNamesAppend(a + [e], b);
    CustomNamesAppend(a, [e]);
  }

  /** The taxonomy listing answer: a failure (bad status or body not JSON) or a decoded body. */
  datatype ListingResponse = ListingFailed | Listing(body: Value)

  /** The tables `tableOf` gives for the named taxonomies, in order, or the first error. */
  function CustomTables(names: seq<string>, tableOf: string -> Result<TermTable>)
    : (r: Result<seq<(string, TermTable)>>)
    ensures r.Ok? <==> forall i :: 0 <= i < |names| ==> tableOf(names[i]).Ok?
    ensures r.Ok? ==> |r.value| == |names|
    ensures r.Ok? ==> forall i :: 0 <= i < |names| ==> r.value[i] == (names[i], tableOf(names[i]).value)
  {
    if names == [] then Ok([])
    else
      var n := |names| - 1;
      var prefix := names[..n];
      assert forall i :: 0 <= i < n ==> prefix[i] == names[i];
      var init :- CustomTables(prefix, tableOf);
      var table :- tableOf(names[n]);
      Ok(init + [(names[n], table)])
  }

  /** The term table of one taxonomy, fetched from its own endpoint. */
  function TableFrom(servers: string -> seq<Pagination.Response<Value>>): string -> Result<TermTable> {
    name => FetchTermsByTaxonomy(servers(name))
  }

  /** fetch_custom_taxonomies as a value: empty when the listing fails, is not a dictionary
      (`.items()` raises and the catch-all returns {}) or when any custom taxonomy's terms are
      malformed (the raised error reaches the same catch-all). */
  function CustomTaxonomies(listing: ListingResponse, servers: string -> seq<Pagination.Response<Value>>)
    : seq<(string, TermTable)>
  {
    if listing.ListingFailed? || !listing.body.Dict? then []
    else
      match CustomTables(CustomTaxonomyNames(listing.body.entries), TableFrom(servers))
      case Ok(tables) => tables
      case Err(_) => []
  }

  /** The loop of fetch_custom_taxonomies over the custom taxonomy names, fetching each
      one's terms in turn. */
  method FetchCustomTaxonomies(listing: ListingResponse, servers: string -> seq<Pagination.Response<Value>>)
    returns (tables: seq<(string, TermTable)>)
    ensures tables == CustomTaxonomies(listing, servers)
  {
    if listing.ListingFailed? || !listing.body.Dict? {
      return [];
    }
    var names := CustomTaxonomyNames(listing.body.entries);
    tables := [];
    for i := 0 to |names|
      invariant CustomTables(names[..i], TableFrom(servers)) == Ok(tables)
    {
      var items, _ := Pagination.FetchWordPressData(servers(names[i]), 100);
      var terms := TermsById(items);
      assert names[..i + 1][..i] == names[..i];
      if terms.Err? {
        CustomTablesErr(names, TableFrom(servers), i + 1);
        return [];
      }
      tables := tables + [(names[i], terms.value)];
    }
    assert names[..|names|] == names;
  }

  /** Once a prefix of the names fails, the whole list fails. */
  lemma CustomTablesErr(names: seq<string>, tableOf: string -> Result<TermTable>, k: nat)
    requires k <= |names|
    requires CustomTables(names[..k], tableOf).Err?
    ensures CustomTables(names, tableOf).Err?
  {
    var i :| 0 <= i < k && tableOf(names[..k][i]).Err?;
    assert names[..k][i] == names[i];
  }

  /** The result never holds a built-in taxonomy; it is either empty or holds every custom
      taxonomy of the listing, in listing order, with its term table. */
  lemma CustomTaxonomiesShape(listing: ListingResponse, servers: string -> seq<Pagination.Response<Value>>)
    ensures var r := CustomTaxonomies(listing, servers);
            && (forall i :: 0 <= i < |r| ==> !BuiltIn(r[i].0))
            && (r == [] || (listing.Listing? && listing.body.Dict? &&
                  var names := CustomTaxonomyNames(listing.body.entries);
                  |r| == |names| && forall i :: 0 <= i < |r| ==> r[i].0 == names[i]))
  {
    var r := CustomTaxonomies(listing, servers);
    if r != [] {
      var names := CustomTaxonomyNames(listing.body.entries);
      CustomNamesMembers(listing.body.entries);
      forall i | 0 <= i < |r| ensures !BuiltIn(r[i].0) {
        assert r[i].0 == names[i] && names[i] in names;
      }
    }
  }
}
