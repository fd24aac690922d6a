/** The item handlers of `backend/controllers/itemController.js`: the Joi
    body schema, creation stamped with the requester as owner, listing
    with page/limit clamping, owner narrowing, search, newest-first order
    and paging, and the owner-or-Admin check on get, update and delete.
    The Mongo collection is the sequence `items`; `find`, `sort`, `skip`
    and `limit` become a filter, an insertion sort and a slice. */
module ItemController {
  import opened Wrappers
  import opened Text
  import opened ItemModel

  // ---------------------------------------------------------------
  // Request bodies and the Joi schema

  /** A JSON body field: absent, `null`, or a value. */
  datatype Field<T> = Missing | Null | Given(value: T)

  /** The body fields the schema knows, and the names of any others. */
  datatype ItemBody = ItemBody(title: Field<string>, description: Field<string>,
                               tags: Field<seq<string>>, otherKeys: set<string>)

  /** The validated `value`; a `null` description reads as absent. */
  datatype ItemInput = ItemInput(title: string, description: Option<string>, tags: Option<seq<string>>)

  datatype ValidationError = TitleRequired | TitleNotString | TitleLength | TagsNotArray | TagEmpty | UnknownKey

  datatype Checked = Valid(input: ItemInput) | Invalid(reason: ValidationError)

  /** What the schema accepts, stated field by field: a title whose
      `length` (UTF-16 code units) is 1 to 200; any description string, `""` or `null`; no tags or an
      array of non-empty strings (`Joi.string()` refuses `""`); no other
      keys. */
  predicate Acceptable(body: ItemBody)
    ensures Acceptable(body) ==> body.title.Given? && body.title.value != "" && |body.title.value| <= 200
    ensures body.otherKeys != {} ==> !Acceptable(body)
    ensures body.tags.Given? && "" in body.tags.value ==> !Acceptable(body)
  {
    && body.title.Given? && 1 <= Utf16Length(body.title.value) <= 200
    && !body.tags.Null?
    && (body.tags.Given? ==> forall i :: 0 <= i < |body.tags.value| ==> body.tags.value[i] != "")
    && body.otherKeys == {}
  }

  /** `itemSchema.validate(body)`, reporting the first failing rule. */
  function Validate(body: ItemBody): (r: Checked)
    ensures r.Valid? <==> Acceptable(body)
    ensures r.Valid? ==> r.input.title == body.title.value
    ensures r.Valid? ==> r.input.description == (if body.description.Given? then Some(body.description.value) else None)
    ensures r.Valid? ==> r.input.tags == (if body.tags.Given? then Some(body.tags.value) else None)
  {
    if body.title.Missing? then Invalid(TitleRequired)
    else if body.title.Null? then Invalid(TitleNotString)
    else if !(1 <= Utf16Length(body.title.value) <= 200) then Invalid(TitleLength)
    else if body.tags.Null? then Invalid(TagsNotArray)
    else if body.tags.Given? && exists i :: 0 <= i < |body.tags.value| && body.tags.value[i] == "" then Invalid(TagEmpty)
    else if body.otherKeys != {} then Invalid(UnknownKey)
    else
      Valid(ItemInput(body.title.value,
                      if body.description.Given? then Some(body.description.value) else None,
                      if body.tags.Given? then Some(body.tags.value) else None))
  }

  // ---------------------------------------------------------------
  // Authorization

  /** The owner-or-Admin rule shared by get, update and delete. */
  predicate MayAccess(role: string, userId: string, item: Item)
    ensures role == "Admin" ==> MayAccess(role, userId, item)
    ensures role != "Admin" ==> (MayAccess(role, userId, item) <==> item.owner == userId)
  {
    role == "Admin" || item.owner == userId
  }

  // ---------------------------------------------------------------
  // Update merge (JavaScript `||`)

  /** `value.description || item.description`: the new description unless
      it is empty, `null` or absent. */
  function MergedDescription(given: Option<string>, current: Option<string>): (r: Option<string>)
    ensures given.Some? && given.value != "" ==> r == given
    ensures given.None? || given.value == "" ==> r == current
  {
    if given.Some? && given.value != "" then given else current
  }

  /** `value.tags || item.tags`: an array is truthy even when empty, so
      the old tags stay only when none were sent. */
  function MergedTags(given: Option<seq<string>>, current: seq<string>): (r: seq<string>)
    ensures given.Some? ==> r == given.value
    ensures given.None? ==> r == current
  {
    given.GetOr(current)
  }

  // ---------------------------------------------------------------
  // Listing: query clamping, filter, order, paging

  /** `Math.max(1, parseInt(req.query.page || "1", 10))`; `None` stands
      for an absent or empty parameter. */
  function PageOf(query: Option<int>): (p: int)
    ensures p >= 1
    ensures query.None? ==> p == 1
    ensures query.Some? && query.value >= 1 ==> p == query.value
    ensures query.Some? && query.value < 1 ==> p == 1
  {
    var n := query.GetOr(1);
    if n < 1 then 1 else n
  }

  /** `Math.max(1, Math.min(100, parseInt(req.query.limit || "10", 10)))`. */
  function LimitOf(query: Option<int>): (l: int)
    ensures 1 <= l <= 100
    ensures query.None? ==> l == 10
    ensures query.Some? && 1 <= query.value <= 100 ==> l == query.value
    ensures query.Some? && query.value > 100 ==> l == 100
    ensures query.Some? && query.value < 1 ==> l == 1
  {
    var n := query.GetOr(10);
    var capped := if n > 100 then 100 else n;
    if capped < 1 then 1 else capped
  }

  /** `(page - 1) * limit`, the number of matches before the page: a
      whole number of pages, `page - 1` of them, so page 1 starts at 0. */
  function Skip(page: int, limit: int): (n: nat)
    requires page >= 1 && limit >= 1
    ensures n % limit == 0 && n / limit == page - 1
    ensures page == 1 <==> n == 0
  {
    MulMonotone(0, page - 1, limit);
    DivExact(page - 1, limit);
    (page - 1) * limit
  }

  /** `Math.ceil(total / limit)` on integers. */
  function PageCount(total: nat, limit: int): (pages: nat)
    requires limit >= 1
    ensures pages * limit >= total
    ensures pages > 0 ==> (pages - 1) * limit < total
  {
    var q := total / limit;
    var rem := total % limit;
    assert total == q * limit + rem;
    if rem == 0 then q else q + 1
  }

  /** The Mongo filter `listItems` assembles: `owner` for a non-Admin
      caller, the `$or` of three case-insensitive matches for a search
      term that is not empty after trimming. */
  datatype Filter = Filter(owner: Option<string>, search: Option<string>)

  function BuildFilter(role: string, userId: string, search: Option<string>): (f: Filter)
    ensures f.owner == (if role != "Admin" then Some(userId) else None)
    ensures f.search.Some? <==> Trim(search.GetOr("")) != ""
    ensures f.search.Some? ==> f.search.value == Trim(search.GetOr(""))
  {
    var term := Trim(search.GetOr(""));
    Filter(if role != "Admin" then Some(userId) else None, if term != "" then Some(term) else None)
  }

  /** Some tag contains the term, ignoring case. */
  predicate SomeTagMatches(tags: seq<string>, term: string)
    ensures SomeTagMatches(tags, term) ==> tags != []
  {
    exists i :: 0 <= i < |tags| && ContainsIgnoreCase(tags[i], term)
  }

  /** A `$regex` on an array field matches when any element does, so the
      tags of two lists together match exactly when one list's do. */
  lemma {:induction false} SomeTagMatchesConcat(a: seq<string>, b: seq<string>, term: string)
    ensures SomeTagMatches(a + b, term) <==> SomeTagMatches(a, term) || SomeTagMatches(b, term)
  {
    if SomeTagMatches(a + b, term) {
      var i :| 0 <= i < |a + b| && ContainsIgnoreCase((a + b)[i], term);
      if i >= |a| {
        assert b[i - |a|] == (a + b)[i];
      }
    }
    if SomeTagMatches(b, term) {
      var i :| 0 <= i < |b| && ContainsIgnoreCase(b[i], term);
      assert (a + b)[|a| + i] == b[i];
    }
    if SomeTagMatches(a, term) {
      var i :| 0 <= i < |a| && ContainsIgnoreCase(a[i], term);
      assert (a + b)[i] == a[i];
    }
  }

  /** The `$or` of `$regex` matches on title, description and tags, the
      term read literally. */
  predicate MatchesSearch(item: Item, term: string)
    ensures term == "" ==> MatchesSearch(item, term)
  {
    assert term == "" ==> ToLower(term) == "" && StartsWith(ToLower(item.title), ToLower(term));
    || ContainsIgnoreCase(item.title, term)
    || (item.description.Some? && ContainsIgnoreCase(item.description.value, term))
    || SomeTagMatches(item.tags, term)
  }

  /** An empty filter (`{}`) matches every item; an owner filter never
      matches another user's item. */
  predicate MatchesFilter(f: Filter, item: Item)
    ensures f == Filter(None, None) ==> MatchesFilter(f, item)
    ensures f.owner.Some? && item.owner != f.owner.value ==> !MatchesFilter(f, item)
  {
    && (f.owner.Some? ==> item.owner == f.owner.value)
    && (f.search.Some? ==> MatchesSearch(item, f.search.value))
  }

  /** A listing without a search term shows a caller exactly the items
      that `getItem` would let them open. */
  lemma ListingShowsAccessible(role: string, userId: string, item: Item)
    ensures MatchesFilter(BuildFilter(role, userId, None), item) <==> MayAccess(role, userId, item)
  {
    assert Trim("") == "";
  }

  /** `Item.find(filter)`: the matching items in collection order. */
  function Select(items: seq<Item>, f: Filter): (r: seq<Item>)
    ensures forall i :: 0 <= i < |r| ==> MatchesFilter(f, r[i])
    ensures forall x :: x in r <==> x in items && MatchesFilter(f, x)
    ensures |r| <= |items|
  {
    if items == [] then []
    else
      var rest := Select(items[1..], f);
      assert forall x :: x in items <==> x == items[0] || x in items[1..];
      if MatchesFilter(f, items[0]) then [items[0]] + rest else rest
  }

  /** The `"i"` option: lowercasing the term never changes which items
      match. */
  lemma SearchIgnoresCase(item: Item, term: string)
    ensures MatchesSearch(item, ToLower(term)) == MatchesSearch(item, term)
  {
    ToLowerIdempotent(term);
  }

  /** `find` keeps the matches segment by segment, so the matches keep
      their collection order and each appears exactly as often as in the
      collection; with the one-item case of `Select`'s contract this
      determines it, and with it the count `countDocuments` reports. */
  lemma {:induction false} SelectConcat(a: seq<Item>, b: seq<Item>, f: Filter)
    ensures Select(a + b, f) == Select(a, f) + Select(b, f)
  {
    if a == [] {
      assert a + b == b;
    } else {
      assert (a + b)[1..] == a[1..] + b;
      SelectConcat(a[1..], b, f);
    }
  }

  /** `.sort({ createdAt: -1 })` holds: creation times never increase. */
  predicate NewestFirst(s: seq<Item>)
    ensures NewestFirst(s) ==> forall k :: 0 <= k < |s| - 1 ==> s[k].createdAt >= s[k + 1].createdAt
    ensures |s| <= 1 ==> NewestFirst(s)
  {
    forall i, j :: 0 <= i < j < |s| ==> s[i].createdAt >= s[j].createdAt
  }

  /** `sort({ createdAt: -1 })` needs only each item to be no older than
      the next: the order of neighbours gives the order of all pairs. */
  lemma {:induction false} NewestFirstFromNeighbours(s: seq<Item>)
    requires forall k :: 0 <= k < |s| - 1 ==> s[k].createdAt >= s[k + 1].createdAt
    ensures NewestFirst(s)
  {
    if |s| > 1 {
      var t := s[1..];
      forall k | 0 <= k < |t| - 1 ensures t[k].createdAt >= t[k + 1].createdAt {
        assert t[k] == s[k + 1] && t[k + 1] == s[k + 2];
      }
      NewestFirstFromNeighbours(t);
      forall i, j | 0 <= i < j < |s| ensures s[i].createdAt >= s[j].createdAt {
        if i > 0 {
          assert s[i] == t[i - 1] && s[j] == t[j - 1];
        } else {
          assert s[1] == t[0] && s[j] == t[j - 1];
          if j > 1 {
            assert t[0].createdAt >= t[j - 1].createdAt;
          }
        }
      }
    }
  }

  function Insert(x: Item, s: seq<Item>): (r: seq<Item>)
    requires NewestFirst(s)
    ensures NewestFirst(r)
    ensures multiset(r) == multiset(s) + multiset{x}
    ensures forall y :: y in r ==> y == x || y in s
  {
    if s == [] || x.createdAt >= s[0].createdAt then [x] + s
    else
      var rest := Insert(x, s[1..]);
      assert s == [s[0]] + s[1..];
      assert forall y :: y in rest ==> s[0].createdAt >= y.createdAt;
      [s[0]] + rest
  }

  /** The order of a listing: newest first, and a permutation of the
      matches. Items created at the same instant come in an order that the
      collaborator leaves unspecified; this one is deterministic. */
  function SortNewestFirst(s: seq<Item>): (r: seq<Item>)
    ensures NewestFirst(r)
    ensures multiset(r) == multiset(s)
  {
    if s == [] then []
    else
      assert s == [s[0]] + s[1..];
      Insert(s[0], SortNewestFirst(s[1..]))
  }

  /** `.skip(skip).limit(limit)`. */
  function Slice(s: seq<Item>, skip: nat, limit: nat): (r: seq<Item>)
    ensures |r| <= limit
    ensures skip >= |s| ==> r == []
    ensures skip < |s| ==> r == s[skip..if skip + limit <= |s| then skip + limit else |s|]
  {
    if skip >= |s| then [] else s[skip..if skip + limit <= |s| then skip + limit else |s|]
  }

  /** The listing query parameters (`None`: absent or empty). */
  datatype ListQuery = ListQuery(page: Option<int>, limit: Option<int>, search: Option<string>)

  /** The JSON `listItems` answers with. */
  datatype Listing = Listing(page: int, limit: int, total: nat, pages: nat, items: seq<Item>)

  /** A page lies past the last one exactly when it starts at or after the
      end of the matches: `pages` is the number of non-empty pages. */
  lemma PagesAreTheNonEmptyPages(total: nat, limit: int, page: int)
    requires limit >= 1 && page >= 1
    ensures Skip(page, limit) >= total <==> page > PageCount(total, limit)
  {
    var pages := PageCount(total, limit);
    if page > pages {
      assert page - 1 >= pages;
      assert (page - 1) * limit >= pages * limit by {
        MulMonotone(pages, page - 1, limit);
      }
    } else if pages > 0 {
      MulMonotone(page - 1, pages - 1, limit);
    }
  }

  /** A multiple of `d` divides exactly. */
  lemma DivExact(q: nat, d: int)
    requires d >= 1
    ensures (q * d) % d == 0 && (q * d) / d == q
  {
    var x := q * d;
    var q', r := x / d, x % d;
    assert x == q' * d + r;
    assert (q - q') * d == r;
    if q' < q {
      MulMonotone(1, q - q', d);
    } else if q' > q {
      MulMonotone(1, q' - q, d);
    }
  }

  lemma MulMonotone(a: int, b: int, c: int)
    requires 0 <= a <= b && c >= 0
    ensures a * c <= b * c
  {
  }

  /** Sorting keeps the members and the length. */
  lemma SortedMembers(s: seq<Item>)
    ensures |SortNewestFirst(s)| == |s|
    ensures forall x :: x in SortNewestFirst(s) ==> x in s
  {
    var sorted := SortNewestFirst(s);
    assert |multiset(sorted)| == |multiset(s)|;
    forall x | x in sorted ensures x in s {
      assert x in multiset(sorted);
    }
  }

  /** A slice of a newest-first sequence is newest first and drawn from it. */
  lemma SliceOfSorted(s: seq<Item>, skip: nat, limit: nat)
    requires NewestFirst(s)
    ensures NewestFirst(Slice(s, skip, limit))
    ensures forall x :: x in Slice(s, skip, limit) ==> x in s
    ensures limit >= 1 ==> (Slice(s, skip, limit) != [] <==> skip < |s|)
  {
    if skip < |s| {
      var e := if skip + limit <= |s| then skip + limit else |s|;
      var p := s[skip..e];
      assert forall i :: 0 <= i < |p| ==> p[i] == s[skip + i];
    }
  }

  /** A page of the sorted matches: sorted itself, drawn from the
      matches, and non-empty exactly up to the page count. */
  lemma PageOfMatches(matches: seq<Item>, page: int, limit: int)
    requires page >= 1 && limit >= 1
    ensures NewestFirst(Slice(SortNewestFirst(matches), Skip(page, limit), limit))
    ensures forall x :: x in Slice(SortNewestFirst(matches), Skip(page, limit), limit) ==> x in matches
    ensures Slice(SortNewestFirst(matches), Skip(page, limit), limit) != [] <==> page <= PageCount(|matches|, limit)
  {
    var sorted := SortNewestFirst(matches);
    var skip := Skip(page, limit);
    SortedMembers(matches);
    SliceOfSorted(sorted, skip, limit);
    PagesAreTheNonEmptyPages(|matches|, limit, page);
    assert skip < |sorted| <==> page <= PageCount(|matches|, limit);
  }

  // ---------------------------------------------------------------
  // Responses and the handlers

  datatype Reply =
    | ItemJson(status: int, item: Item)
    | Message(status: int, text: string)
    | BadRequest(status: int, reason: ValidationError)

  /** The first index of an item with this id (`findById`), if any. */
  function FindIndex(items: seq<Item>, id: string): (r: Option<nat>)
    ensures r.Some? ==> r.value < |items| && items[r.value].id == id
    ensures r.Some? ==> forall j :: 0 <= j < r.value ==> items[j].id != id
    ensures r.None? ==> forall j :: 0 <= j < |items| ==> items[j].id != id
  {
    if items == [] then None
    else if items[0].id == id then Some(0)
    else
      match FindIndex(items[1..], id)
      case None => None
      case Some(k) => Some(k + 1)
  }

  class ItemStore {
    /** The item collection. */
    var items: seq<Item>

    /** Everything stored passed the schema's required-field check, and
        no two items share an `_id`. */
    predicate Valid()
      reads this
    {
      && (forall i :: 0 <= i < |items| ==> Conforms(items[i]))
      && (forall i, j :: 0 <= i < j < |items| ==> items[i].id != items[j].id)
    }

    constructor ()
      ensures items == [] && Valid()
    {
      items := [];
    }

    /** `createItem`: 400 on a body the schema refuses; otherwise a new
        document owned by the requester, with both timestamps set to now,
        is appended and returned with 201. A requester id the model cannot
        store as owner (empty) is refused by the save and answers 500. */
    method CreateItem(body: ItemBody, userId: string, newId: string, now: int) returns (r: Reply)
      requires Valid()
      requires FindIndex(items, newId).None?
      modifies this
      ensures Valid()
      ensures !Acceptable(body) ==> r == BadRequest(400, Validate(body).reason) && items == old(items)
      ensures Acceptable(body) && userId == "" ==> r == Message(500, "Server error") && items == old(items)
      ensures Acceptable(body) && userId != "" ==>
        var v := Validate(body).input;
        var item := Item(newId, v.title, v.description, userId, v.tags.GetOr([]), now, now);
        items == old(items) + [item] && r == ItemJson(201, item)
    {
      var checked := Validate(body);
      if checked.Invalid? {
        return BadRequest(400, checked.reason);
      }
      var value := checked.input;
      var doc := new ItemDocument.New(newId, value.title, value.description, userId, value.tags, now);
      var ok := doc.Save(now);
      if !ok {
        return Message(500, "Server error");
      }
      var item := doc.Value();
      items := items + [item];
      r := ItemJson(201, item);
    }

    /** `listItems`: the clamped page and limit, the number of matches of
        the caller's filter, the page count, and the requested page of the
        matches sorted newest first. */
    method ListItems(query: ListQuery, userId: string, role: string) returns (r: Listing)
      ensures r.page == PageOf(query.page) && r.limit == LimitOf(query.limit)
      ensures r.page >= 1 && 1 <= r.limit <= 100
      ensures r.total == |Select(items, BuildFilter(role, userId, query.search))|
      ensures r.pages == PageCount(r.total, r.limit)
      ensures r.items == Slice(SortNewestFirst(Select(items, BuildFilter(role, userId, query.search))),
                               Skip(r.page, r.limit), r.limit)
      ensures |r.items| <= r.limit && NewestFirst(r.items)
      ensures forall x :: x in r.items ==> x in items && MatchesFilter(BuildFilter(role, userId, query.search), x)
      ensures role != "Admin" ==> forall x :: x in r.items ==> x.owner == userId
      ensures r.items != [] <==> r.page <= r.pages
    {
      var page := PageOf(query.page);
      var limit := LimitOf(query.limit);
      var filter := BuildFilter(role, userId, query.search);
      var matches := Select(items, filter);
      var total := |matches|;
      var pageItems := Slice(SortNewestFirst(matches), Skip(page, limit), limit);
      PageOfMatches(matches, page, limit);
      r := Listing(page, limit, total, PageCount(total, limit), pageItems);
    }

    /** `getItem`: 404 for an unknown id, 403 unless the caller is Admin
        or the owner, otherwise the item with 200. */
    method GetItem(id: string, userId: string, role: string) returns (r: Reply)
      ensures FindIndex(items, id).None? ==> r == Message(404, "Item not found")
      ensures FindIndex(items, id).Some? ==>
        var item := items[FindIndex(items, id).value];
        r == if MayAccess(role, userId, item) then ItemJson(200, item) else Message(403, "Forbidden")
    {
      var found := FindIndex(items, id);
      if found.None? {
        return Message(404, "Item not found");
      }
      var item := items[found.value];
      if role != "Admin" && item.owner != userId {
        return Message(403, "Forbidden");
      }
      r := ItemJson(200, item);
    }

    /** `updateItem`: 404, then 403, and only then 400, so a forbidden
        caller learns nothing about the body; otherwise the title is
        replaced, the description kept when the new one is falsy, the tags
        kept only when none were sent, `updatedAt` stamped, and nothing
        else about the item or any other item changes. */
    method UpdateItem(id: string, body: ItemBody, userId: string, role: string, now: int) returns (r: Reply)
      requires Valid()
      modifies this
      ensures Valid()
      ensures FindIndex(old(items), id).None? ==> r == Message(404, "Item not found") && items == old(items)
      ensures FindIndex(old(items), id).Some? && !MayAccess(role, userId, old(items)[FindIndex(old(items), id).value]) ==>
        r == Message(403, "Forbidden") && items == old(items)
      ensures (FindIndex(old(items), id).Some? && MayAccess(role, userId, old(items)[FindIndex(old(items), id).value])
               && !Acceptable(body)) ==>
        r == BadRequest(400, Validate(body).reason) && items == old(items)
      ensures (FindIndex(old(items), id).Some? && MayAccess(role, userId, old(items)[FindIndex(old(items), id).value])
               && Acceptable(body)) ==>
        var k := FindIndex(old(items), id).value;
        var was := old(items)[k];
        var v := Validate(body).input;
        var item := was.(title := v.title,
                         description := MergedDescription(v.description, was.description),
                         tags := MergedTags(v.tags, was.tags),
                         updatedAt := now);
        items == old(items)[k := item] && r == ItemJson(200, item)
    {
      var found := FindIndex(items, id);
      if found.None? {
        return Message(404, "Item not found");
      }
      var k := found.value;
      var doc := new ItemDocument.Load(items[k]);
      if role != "Admin" && doc.owner != userId {
        return Message(403, "Forbidden");
      }
      var checked := Validate(body);
      if checked.Invalid? {
        return BadRequest(400, checked.reason);
      }
      var value := checked.input;
      doc.title := value.title;
      doc.description := MergedDescription(value.description, doc.description);
      doc.tags := MergedTags(value.tags, doc.tags);
      assert Conforms(doc.Value());
      var ok := doc.Save(now);
      items := items[k := doc.Value()];
      r := ItemJson(200, doc.Value());
    }

    /** `deleteItem`: 404, then 403, otherwise exactly that item leaves the
        collection and the others stay in order. */
    method DeleteItem(id: string, userId: string, role: string) returns (r: Reply)
      requires Valid()
      modifies this
      ensures Valid()
      ensures FindIndex(old(items), id).None? ==> r == Message(404, "Item not found") && items == old(items)
      ensures FindIndex(old(items), id).Some? && !MayAccess(role, userId, old(items)[FindIndex(old(items), id).value]) ==>
        r == Message(403, "Forbidden") && items == old(items)
      ensures FindIndex(old(items), id).Some? && MayAccess(role, userId, old(items)[FindIndex(old(items), id).value]) ==>
        var k := FindIndex(old(items), id).value;
        items == old(items)[..k] + old(items)[k + 1..] && r == Message(200, "Item deleted successfully")
    {
      var found := FindIndex(items, id);
      if found.None? {
        return Message(404, "Item not found");
      }
      var k := found.value;
      if role != "Admin" && items[k].owner != userId {
        return Message(403, "Forbidden");
      }
      items := items[..k] + items[k + 1..];
      r := Message(200, "Item deleted successfully");
    }
  }

  /** Admin listing without a search term counts every item, whoever
      owns it. */
  lemma {:induction false} AdminSelectsAll(items: seq<Item>)
    ensures Select(items, Filter(None, None)) == items
  {
    if items != [] {
      AdminSelectsAll(items[1..]);
      assert [items[0]] + items[1..] == items;
    }
  }

  /** A non-Admin caller's filter keeps exactly their own items (before any
      search), whatever else the collection holds. */
  lemma NonAdminSelectsOwn(items: seq<Item>, userId: string, role: string, x: Item)
    requires role != "Admin"
    ensures x in Select(items, BuildFilter(role, userId, None)) <==> x in items && x.owner == userId
  {
    assert Trim("") == "";
  }
}
