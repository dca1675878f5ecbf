/** The admin dashboard's in-memory list: the three-way filter, delete-by-id, the
    summary counters and the status badge. */
module Dashboard {
  import opened Text
  import opened Sequences

  /** A row of the dashboard table (the local record shape, with `location`/`date`). */
  datatype Item = Item(
    id: int,
    name: string,
    brand: string,
    color: string,
    category: string,
    location: string,
    date: string,
    status: string)

  const Lost := "Hilang"
  const Found := "Ditemukan"
  const Returned := "Dikembalikan"

  /** The three statuses the dashboard knows by name. */
  predicate KnownStatus(status: string) {
    status == Lost || status == Found || status == Returned
  }

  /** The search box and the two selects; the empty string is "no filter". */
  datatype Criteria = Criteria(searchTerm: string, categoryFilter: string, statusFilter: string)

  function SearchOnly(term: string): Criteria {
    Criteria(term, "", "")
  }

  function CategoryOnly(category: string): Criteria {
    Criteria("", category, "")
  }

  function StatusOnly(status: string): Criteria {
    Criteria("", "", status)
  }

  predicate MatchesSearch(item: Item, term: string) {
    Contains(Lower(item.name), Lower(term))
  }

  /** An empty select is falsy in the source, so it lets every item through. */
  predicate MatchesCategory(item: Item, category: string) {
    category == "" || item.category == category
  }

  predicate MatchesStatus(item: Item, status: string) {
    status == "" || item.status == status
  }

  predicate Keep(item: Item, c: Criteria) {
    && MatchesSearch(item, c.searchTerm)
    && MatchesCategory(item, c.categoryFilter)
    && MatchesStatus(item, c.statusFilter)
  }

  /** `filteredItems`: the items that pass all three criteria, in their original order. */
  function FilteredItems(items: seq<Item>, c: Criteria): (r: seq<Item>)
    ensures IsSubsequence(r, items)
    ensures forall x :: x in r <==> x in items && Keep(x, c)
    ensures |r| <= |items|
  {
    if |items| == 0 then []
    else
      var rest := FilteredItems(items[1..], c);
      if Keep(items[0], c) then
        assert ([items[0]] + rest)[1..] == rest;
        [items[0]] + rest
      else
        rest
  }

  /** The filter keeps each passing item as often as it occurs, and no other item. */
  lemma {:induction false} FilterKeepsMultiplicity(items: seq<Item>, c: Criteria)
    ensures forall x :: multiset(FilteredItems(items, c))[x] == if Keep(x, c) then multiset(items)[x] else 0
    decreases |items|
  {
    if |items| > 0 {
      FilterKeepsMultiplicity(items[1..], c);
      assert items == [items[0]] + items[1..];
      assert multiset(items) == multiset{items[0]} + multiset(items[1..]);
    }
  }

  /** `deleteItem(id)`: no item with that id is left, every other item stays, in order. */
  function DeleteItem(items: seq<Item>, id: int): (r: seq<Item>)
    ensures IsSubsequence(r, items)
    ensures forall x :: x in r <==> x in items && x.id != id
  {
    if |items| == 0 then []
    else
      var rest := DeleteItem(items[1..], id);
      if items[0].id != id then
        assert ([items[0]] + rest)[1..] == rest;
        [items[0]] + rest
      else
        rest
  }

  /** Deletion keeps every item of another id as often as it occurs. */
  lemma {:induction false} DeleteKeepsMultiplicity(items: seq<Item>, id: int)
    ensures forall x :: multiset(DeleteItem(items, id))[x] == if x.id == id then 0 else multiset(items)[x]
    decreases |items|
  {
    if |items| > 0 {
      DeleteKeepsMultiplicity(items[1..], id);
      assert items == [items[0]] + items[1..];
      assert multiset(items) == multiset{items[0]} + multiset(items[1..]);
    }
  }

  /** The empty search term is contained in every lower-cased name. */
  lemma EmptySearchMatches(item: Item)
    ensures MatchesSearch(item, "")
  {
    assert Lower("") == "";
    ContainsEmpty(Lower(item.name));
  }

  /** Filtering keeps the whole list when every item passes. */
  lemma {:induction false} FilterKeepsAllPassing(items: seq<Item>, c: Criteria)
    requires forall i :: 0 <= i < |items| ==> Keep(items[i], c)
    ensures FilteredItems(items, c) == items
    decreases |items|
  {
    if |items| > 0 {
      assert Keep(items[0], c);
      FilterKeepsAllPassing(items[1..], c);
      assert items == [items[0]] + items[1..];
    }
  }

  /** With the search box and both selects empty, the table shows the whole list. */
  lemma {:induction false} NoCriteriaShowsAll(items: seq<Item>)
    ensures FilteredItems(items, Criteria("", "", "")) == items
  {
    forall i | 0 <= i < |items|
      ensures Keep(items[i], Criteria("", "", ""))
    {
      EmptySearchMatches(items[i]);
    }
    FilterKeepsAllPassing(items, Criteria("", "", ""));
  }

  /** Two criteria that accept the same items give the same table. */
  lemma {:induction false} FilterRespectsEquivalentCriteria(items: seq<Item>, c1: Criteria, c2: Criteria)
    requires forall x :: Keep(x, c1) <==> Keep(x, c2)
    ensures FilteredItems(items, c1) == FilteredItems(items, c2)
    decreases |items|
  {
    if |items| > 0 {
      FilterRespectsEquivalentCriteria(items[1..], c1, c2);
    }
  }

  /** Filtering twice is filtering once by a criteria that demands both. */
  lemma {:induction false} FilterTwice(items: seq<Item>, c1: Criteria, c2: Criteria, both: Criteria)
    requires forall x :: Keep(x, both) <==> Keep(x, c1) && Keep(x, c2)
    ensures FilteredItems(FilteredItems(items, c1), c2) == FilteredItems(items, both)
    decreases |items|
  {
    if |items| > 0 {
      FilterTwice(items[1..], c1, c2, both);
    }
  }

  /** The order in which two filters are applied does not matter. */
  lemma {:induction false} FiltersCommute(items: seq<Item>, c1: Criteria, c2: Criteria)
    ensures FilteredItems(FilteredItems(items, c1), c2) == FilteredItems(FilteredItems(items, c2), c1)
    decreases |items|
  {
    if |items| > 0 {
      FiltersCommute(items[1..], c1, c2);
    }
  }

  /** The dashboard criteria are the conjunction of the search-only, category-only and
      status-only criteria. */
  lemma KeepIsConjunction(x: Item, c: Criteria)
    ensures Keep(x, c) <==>
            Keep(x, SearchOnly(c.searchTerm)) && Keep(x, CategoryOnly(c.categoryFilter)) &&
            Keep(x, StatusOnly(c.statusFilter))
  {
    EmptySearchMatches(x);
  }

  /** The combined filter is the search-only filter, then the category-only filter,
      then the status-only filter. */
  lemma {:induction false} FilterIsSingleFiltersInTurn(items: seq<Item>, c: Criteria)
    ensures FilteredItems(items, c) ==
            FilteredItems(FilteredItems(FilteredItems(items, SearchOnly(c.searchTerm)),
                                        CategoryOnly(c.categoryFilter)),
                          StatusOnly(c.statusFilter))
  {
    var s, k, t := SearchOnly(c.searchTerm), CategoryOnly(c.categoryFilter), StatusOnly(c.statusFilter);
    var sk := Criteria(c.searchTerm, c.categoryFilter, "");
    forall x ensures Keep(x, sk) <==> Keep(x, s) && Keep(x, k) {
      EmptySearchMatches(x);
    }
    forall x ensures Keep(x, c) <==> Keep(x, sk) && Keep(x, t) {
      EmptySearchMatches(x);
    }
    FilterTwice(items, s, k, sk);
    FilterTwice(items, sk, t, c);
  }

  /** Three filters applied one after another give the same table in all six orders. */
  lemma {:induction false} ThreeFiltersAnyOrder(items: seq<Item>, a: Criteria, b: Criteria, d: Criteria)
    ensures var abd := FilteredItems(FilteredItems(FilteredItems(items, a), b), d);
      && abd == FilteredItems(FilteredItems(FilteredItems(items, a), d), b)
      && abd == FilteredItems(FilteredItems(FilteredItems(items, b), a), d)
      && abd == FilteredItems(FilteredItems(FilteredItems(items, b), d), a)
      && abd == FilteredItems(FilteredItems(FilteredItems(items, d), a), b)
      && abd == FilteredItems(FilteredItems(FilteredItems(items, d), b), a)
  {
    var fa, fb, fd := FilteredItems(items, a), FilteredItems(items, b), FilteredItems(items, d);
    FiltersCommute(fa, b, d);                      // a b d = a d b
    FiltersCommute(items, a, b);                   // a b d = b a d
    FiltersCommute(fb, a, d);                      // b a d = b d a
    FiltersCommute(items, b, d);                   // b d a = d b a
    FiltersCommute(fd, b, a);                      // d b a = d a b
  }

  /** The combined filter equals the three single filters applied one after another,
      in every one of the six orders. */
  lemma {:induction false} FilterIsThreeSingleFilters(items: seq<Item>, c: Criteria)
    ensures var s, k, t := SearchOnly(c.searchTerm), CategoryOnly(c.categoryFilter), StatusOnly(c.statusFilter);
      && FilteredItems(items, c) == FilteredItems(FilteredItems(FilteredItems(items, s), k), t)
      && FilteredItems(items, c) == FilteredItems(FilteredItems(FilteredItems(items, s), t), k)
      && FilteredItems(items, c) == FilteredItems(FilteredItems(FilteredItems(items, k), s), t)
      && FilteredItems(items, c) == FilteredItems(FilteredItems(FilteredItems(items, k), t), s)
      && FilteredItems(items, c) == FilteredItems(FilteredItems(FilteredItems(items, t), s), k)
      && FilteredItems(items, c) == FilteredItems(FilteredItems(FilteredItems(items, t), k), s)
  {
    FilterIsSingleFiltersInTurn(items, c);
    ThreeFiltersAnyOrder(items, SearchOnly(c.searchTerm), CategoryOnly(c.categoryFilter), StatusOnly(c.statusFilter));
  }

  /** Search ignores case: two terms with the same lower-case form give the same table. */
  lemma {:induction false} SearchDependsOnlyOnLowerCase(items: seq<Item>, c: Criteria, term: string)
    requires Lower(term) == Lower(c.searchTerm)
    ensures FilteredItems(items, c.(searchTerm := term)) == FilteredItems(items, c)
  {
    FilterRespectsEquivalentCriteria(items, c.(searchTerm := term), c);
  }

  /** In particular the upper-cased and the lower-cased term give the table of the term. */
  lemma {:induction false} SearchIgnoresCase(items: seq<Item>, c: Criteria)
    ensures FilteredItems(items, c.(searchTerm := Upper(c.searchTerm))) == FilteredItems(items, c)
    ensures FilteredItems(items, c.(searchTerm := Lower(c.searchTerm))) == FilteredItems(items, c)
  {
    LowerForgetsCase(c.searchTerm);
    SearchDependsOnlyOnLowerCase(items, c, Upper(c.searchTerm));
    SearchDependsOnlyOnLowerCase(items, c, Lower(c.searchTerm));
  }

  /** Deleting an id that no item carries leaves the list as it was. */
  lemma {:induction false} DeleteAbsentIdIsNoOp(items: seq<Item>, id: int)
    requires forall i :: 0 <= i < |items| ==> items[i].id != id
    ensures DeleteItem(items, id) == items
    decreases |items|
  {
    if |items| > 0 {
      DeleteAbsentIdIsNoOp(items[1..], id);
      assert items == [items[0]] + items[1..];
    }
  }

  /** Deleting the same id twice is deleting it once. */
  lemma {:induction false} DeleteIsIdempotent(items: seq<Item>, id: int)
    ensures DeleteItem(DeleteItem(items, id), id) == DeleteItem(items, id)
  {
    DeleteAbsentIdIsNoOp(DeleteItem(items, id), id);
  }

  /** The "Barang Hilang" counter. */
  function CountLost(items: seq<Item>): nat {
    if |items| == 0 then 0 else (if items[0].status == Lost then 1 else 0) + CountLost(items[1..])
  }

  /** The "Barang Ditemukan" counter: found or returned items. */
  function CountFound(items: seq<Item>): nat {
    if |items| == 0 then 0
    else (if items[0].status == Found || items[0].status == Returned then 1 else 0) + CountFound(items[1..])
  }

  /** The lost and the found-or-returned items are disjoint groups of the list; they
      make up all of it when every status is one the dashboard knows. */
  lemma {:induction false} CountsPartitionKnownStatuses(items: seq<Item>)
    ensures CountLost(items) + CountFound(items) <= |items|
    ensures (forall i :: 0 <= i < |items| ==> KnownStatus(items[i].status)) ==>
            CountLost(items) + CountFound(items) == |items|
    decreases |items|
  {
    if |items| > 0 {
      CountsPartitionKnownStatuses(items[1..]);
    }
  }

  /** The lost counter is the number of rows the status select "Hilang" shows. */
  lemma {:induction false} LostCountIsLostFilterSize(items: seq<Item>)
    ensures CountLost(items) == |FilteredItems(items, StatusOnly(Lost))|
    decreases |items|
  {
    if |items| > 0 {
      EmptySearchMatches(items[0]);
      LostCountIsLostFilterSize(items[1..]);
    }
  }

  /** The found counter is the number of rows the status select shows for "Ditemukan"
      plus the number it shows for "Dikembalikan". */
  lemma {:induction false} FoundCountIsFoundFilterSizes(items: seq<Item>)
    ensures CountFound(items) ==
            |FilteredItems(items, StatusOnly(Found))| + |FilteredItems(items, StatusOnly(Returned))|
    decreases |items|
  {
    if |items| > 0 {
      EmptySearchMatches(items[0]);
      FoundCountIsFoundFilterSizes(items[1..]);
    }
  }

  /** The three summary cards. */
  datatype Summary = Summary(total: nat, lost: nat, found: nat)

  function Summarize(items: seq<Item>): (r: Summary)
    ensures r.total == |items|
    ensures r.lost == |FilteredItems(items, StatusOnly(Lost))|
    ensures r.found == |FilteredItems(items, StatusOnly(Found))| + |FilteredItems(items, StatusOnly(Returned))|
    ensures r.lost + r.found <= r.total
    ensures (forall i :: 0 <= i < |items| ==> KnownStatus(items[i].status)) ==> r.lost + r.found == r.total
  {
    CountsPartitionKnownStatuses(items);
    LostCountIsLostFilterSize(items);
    FoundCountIsFoundFilterSizes(items);
    Summary(|items|, CountLost(items), CountFound(items))
  }

  /** The badge styles: `variant="destructive"`, an amber class, a green class, or none. */
  datatype BadgeStyle = Destructive | Amber | Green | Plain

  datatype Badge = Badge(style: BadgeStyle, caption: string)

  /** `renderStatusBadge` */
  function StatusBadge(status: string): (b: Badge)
    ensures b.caption == status
    ensures b.style == Plain <==> !KnownStatus(status)
  {
    match status
    case "Hilang" => Badge(Destructive, status)
    case "Ditemukan" => Badge(Amber, status)
    case "Dikembalikan" => Badge(Green, status)
    case _ => Badge(Plain, status)
  }

  /** The three known statuses get pairwise different styles. */
  lemma BadgeSeparatesKnownStatuses(s1: string, s2: string)
    requires KnownStatus(s1) && KnownStatus(s2)
    ensures StatusBadge(s1).style == StatusBadge(s2).style <==> s1 == s2
  {
  }

  /** The sample list the dashboard starts from. */
  const InitialData: seq<Item> := [
    Item(1, "Laptop Acer", "Acer", "Hitam", "Elektronik", "Perpustakaan", "2025-05-15", "Hilang"),
    Item(2, "Dompet", "Eiger", "Coklat", "Aksesoris", "Kantin", "2025-05-14", "Ditemukan"),
    Item(3, "Buku Algoritma", "-", "Biru", "Buku", "Lab Komputer", "2025-05-12", "Dikembalikan"),
    Item(4, "iPhone 15", "Apple", "Putih", "Elektronik", "Gedung A", "2025-05-10", "Hilang"),
    Item(5, "Jaket", "Uniqlo", "Hitam", "Pakaian", "Gedung B", "2025-05-08", "Ditemukan")
  ]

  /** The summary cards of the sample list read 5, 2 and 3. */
  lemma InitialSummary()
    ensures Summarize(InitialData) == Summary(5, 2, 3)
  {
    var d := InitialData;
    assert d[1..][1..][1..][1..][1..] == [];
    assert CountLost(d) == 2;
    assert CountFound(d) == 3;
  }
}
