/** What `executePaged` returns: the matching documents, sorted by the requested
    key and then by ascending id, cut to the requested page, together with the
    number of all matching documents. The store's aggregation pipeline itself is
    not modelled, only its result. */
module Paging {
  import opened Text
  import opened Catalog
  import opened Search

  // ---------------------------------------------------------------------------
  // the sort order

  /** The value a document is sorted by. The `Product` record has no creation
      timestamp, so sorting by `createdAt` sees the same (missing) value on
      every document. */
  datatype SortKey = TextKey(s: string) | NumberKey(x: real) | NoKey

  function KeyOf(p: Product, f: SortField): SortKey {
    match f
    case Name => TextKey(p.name)
    case Price => NumberKey(p.price)
    case Brand => TextKey(p.brand)
    case CategoryName => TextKey(p.categoryName)
    case CreatedAt => NoKey
  }

  predicate KeyLess(a: SortKey, b: SortKey) {
    match (a, b)
    case (TextKey(s), TextKey(t)) => LexLess(s, t)
    case (NumberKey(x), NumberKey(y)) => x < y
    case _ => false
  }

  /** `p` comes strictly before `q` under `sort.and(Sort.by(ASC, "_id"))`. */
  predicate Before(p: Product, q: Product, o: SortSpec) {
    var a, b := KeyOf(p, o.field), KeyOf(q, o.field);
    if a != b then (if o.direction == Asc then KeyLess(a, b) else KeyLess(b, a))
    else LexLess(IdKey(p), IdKey(q))
  }

  /** Two documents the order cannot tell apart: same key and same id. */
  predicate Tied(p: Product, q: Product, o: SortSpec) {
    KeyOf(p, o.field) == KeyOf(q, o.field) && IdKey(p) == IdKey(q)
  }

  lemma KeyLessTransitive(a: SortKey, b: SortKey, c: SortKey)
    requires KeyLess(a, b) && KeyLess(b, c)
    ensures KeyLess(a, c)
  {
    if a.TextKey? {
      LexTransitive(a.s, b.s, c.s);
    }
  }

  lemma KeyLessAsymmetric(a: SortKey, b: SortKey)
    requires KeyLess(a, b)
    ensures !KeyLess(b, a) && a != b
  {
    if a.TextKey? {
      LexAsymmetric(a.s, b.s);
    }
  }

  lemma BeforeIrreflexive(p: Product, o: SortSpec)
    ensures !Before(p, p, o)
  {
    LexIrreflexive(IdKey(p));
  }

  lemma BeforeAsymmetric(p: Product, q: Product, o: SortSpec)
    requires Before(p, q, o)
    ensures !Before(q, p, o)
  {
    var a, b := KeyOf(p, o.field), KeyOf(q, o.field);
    if a != b {
      if o.direction == Asc { KeyLessAsymmetric(a, b); } else { KeyLessAsymmetric(b, a); }
    } else {
      LexAsymmetric(IdKey(p), IdKey(q));
    }
  }

  lemma BeforeTransitive(p: Product, q: Product, r: Product, o: SortSpec)
    requires Before(p, q, o) && Before(q, r, o)
    ensures Before(p, r, o)
  {
    var a, b, c := KeyOf(p, o.field), KeyOf(q, o.field), KeyOf(r, o.field);
    if a != b && b != c {
      if o.direction == Asc {
        KeyLessTransitive(a, b, c);
        KeyLessAsymmetric(a, c);
      } else {
        KeyLessTransitive(c, b, a);
        KeyLessAsymmetric(c, a);
      }
    } else if a == b && b == c {
      LexTransitive(IdKey(p), IdKey(q), IdKey(r));
    }
  }

  /** Any two documents are ordered one way or the other, or tied. */
  lemma BeforeTrichotomy(p: Product, q: Product, o: SortSpec)
    ensures Before(p, q, o) || Before(q, p, o) || Tied(p, q, o)
  {
    var a, b := KeyOf(p, o.field), KeyOf(q, o.field);
    if a != b {
      if a.TextKey? { LexTotal(a.s, b.s); }
    } else if IdKey(p) != IdKey(q) {
      LexTotal(IdKey(p), IdKey(q));
    }
  }

  /** "Not after" is transitive. */
  lemma NotBeforeTransitive(p: Product, q: Product, r: Product, o: SortSpec)
    requires !Before(q, p, o) && !Before(r, q, o)
    ensures !Before(r, p, o)
  {
    BeforeTrichotomy(p, q, o);
    BeforeTrichotomy(q, r, o);
    if Before(p, q, o) && Before(q, r, o) {
      BeforeTransitive(p, q, r, o);
      BeforeAsymmetric(p, r, o);
    }
  }

  // ---------------------------------------------------------------------------
  // sorting

  /** Neighbours are in order. */
  predicate Sorted(s: seq<Product>, o: SortSpec) {
    forall i :: 0 < i < |s| ==> !Before(s[i], s[i - 1], o)
  }

  /** Every pair is in order. */
  predicate SortedAll(s: seq<Product>, o: SortSpec) {
    forall i, j :: 0 <= i < j < |s| ==> !Before(s[j], s[i], o)
  }

  /** Distinct positions hold documents with distinct ids. */
  predicate DistinctIds(s: seq<Product>) {
    forall i, j :: 0 <= i < j < |s| ==> IdKey(s[i]) != IdKey(s[j])
  }

  /** Dropping the head keeps a list sorted. */
  lemma SortedTail(s: seq<Product>, o: SortSpec)
    requires s != [] && Sorted(s, o)
    ensures Sorted(s[1..], o)
  {
    forall i | 0 < i < |s[1..]| ensures !Before(s[1..][i], s[1..][i - 1], o) {
      assert s[1..][i] == s[i + 1] && s[1..][i - 1] == s[i];
    }
  }

  /** Dropping the head keeps the ids distinct, and none of the rest has the head's id. */
  lemma IdsTail(s: seq<Product>)
    requires s != [] && DistinctIds(s)
    ensures DistinctIds(s[1..])
    ensures forall e :: e in s[1..] ==> IdKey(e) != IdKey(s[0])
  {
    forall i, j | 0 <= i < j < |s[1..]| ensures IdKey(s[1..][i]) != IdKey(s[1..][j]) {
      assert s[1..][i] == s[i + 1] && s[1..][j] == s[j + 1];
    }
    forall e | e in s[1..] ensures IdKey(e) != IdKey(s[0]) {
      var k :| 0 <= k < |s[1..]| && s[1..][k] == e;
      assert s[k + 1] == e;
    }
  }

  /** Putting a document with a new id in front keeps the ids distinct. */
  lemma IdsCons(h: Product, s: seq<Product>)
    requires DistinctIds(s)
    requires forall e :: e in s ==> IdKey(e) != IdKey(h)
    ensures DistinctIds([h] + s)
  {
    var r := [h] + s;
    forall i, j | 0 <= i < j < |r| ensures IdKey(r[i]) != IdKey(r[j]) {
      assert r[j] == s[j - 1] && s[j - 1] in s;
      if i > 0 {
        assert r[i] == s[i - 1];
      }
    }
  }

  lemma {:induction false} SortedAllOf(s: seq<Product>, o: SortSpec)
    requires Sorted(s, o)
    ensures SortedAll(s, o)
  {
    if |s| > 1 {
      SortedTail(s, o);
      SortedAllOf(s[1..], o);
      forall i, j | 0 <= i < j < |s| ensures !Before(s[j], s[i], o) {
        if i == 0 {
          if j > 1 {
            assert s[j] == s[1..][j - 1] && s[1] == s[1..][0];
            NotBeforeTransitive(s[0], s[1], s[j], o);
          }
        } else {
          assert s[j] == s[1..][j - 1] && s[i] == s[1..][i - 1];
        }
      }
    }
  }

  /** Inserting `x` into a sorted list. */
  function Insert(x: Product, s: seq<Product>, o: SortSpec): (r: seq<Product>)
    requires Sorted(s, o)
    ensures |r| == |s| + 1
    ensures multiset(r) == multiset(s) + multiset{x}
    ensures forall e :: e in r <==> e == x || e in s
    ensures r[0] == x || (s != [] && r[0] == s[0])
    ensures Sorted(r, o)
  {
    if s == [] then [x]
    else if Before(s[0], x, o) then
      SortedTail(s, o);
      var rest := Insert(x, s[1..], o);
      assert Sorted([s[0]] + rest, o) by {
        BeforeAsymmetric(s[0], x, o);
        ConsSorted(s[0], rest, o);
      }
      assert s == [s[0]] + s[1..];
      [s[0]] + rest
    else
      ConsSorted(x, s, o);
      [x] + s
  }

  /** Putting `h` in front of a sorted list keeps it sorted when `h` is not after its head. */
  lemma ConsSorted(h: Product, s: seq<Product>, o: SortSpec)
    requires Sorted(s, o)
    requires s != [] ==> !Before(s[0], h, o)
    ensures Sorted([h] + s, o)
  {
    var r := [h] + s;
    forall i | 0 < i < |r| ensures !Before(r[i], r[i - 1], o) {
      if i > 1 {
        assert r[i] == s[i - 1] && r[i - 1] == s[i - 2];
      }
    }
  }

  /** Inserting a document whose id is new keeps the ids distinct. */
  lemma {:induction false} InsertIds(x: Product, s: seq<Product>, o: SortSpec)
    requires Sorted(s, o) && DistinctIds(s)
    requires forall e :: e in s ==> IdKey(e) != IdKey(x)
    ensures DistinctIds(Insert(x, s, o))
  {
    if s == [] {
    } else if Before(s[0], x, o) {
      SortedTail(s, o);
      IdsTail(s);
      assert forall e :: e in s[1..] ==> e in s;
      InsertIds(x, s[1..], o);
      var rest := Insert(x, s[1..], o);
      assert s[0] in s;
      IdsCons(s[0], rest);
    } else {
      IdsCons(x, s);
    }
  }

  /** Insertion sort: the documents in the store's order for the sort spec. */
  function SortBy(s: seq<Product>, o: SortSpec): (r: seq<Product>)
    ensures |r| == |s|
    ensures multiset(r) == multiset(s)
    ensures forall e :: e in r <==> e in s
    ensures Sorted(r, o)
  {
    if s == [] then []
    else
      assert s == [s[0]] + s[1..];
      Insert(s[0], SortBy(s[1..], o), o)
  }

  /** Sorting keeps the ids distinct. */
  lemma {:induction false} SortByIds(s: seq<Product>, o: SortSpec)
    requires DistinctIds(s)
    ensures DistinctIds(SortBy(s, o))
  {
    if s != [] {
      IdsTail(s);
      SortByIds(s[1..], o);
      InsertIds(s[0], SortBy(s[1..], o), o);
    }
  }

  /** Dropping the head keeps every pair in order. */
  lemma SortedAllTail(s: seq<Product>, o: SortSpec)
    requires s != [] && SortedAll(s, o)
    ensures SortedAll(s[1..], o)
  {
    forall i, j | 0 <= i < j < |s[1..]| ensures !Before(s[1..][j], s[1..][i], o) {
      assert s[1..][i] == s[i + 1] && s[1..][j] == s[j + 1];
    }
  }

  /** Lists with the same documents and the same head have the same documents after it. */
  lemma TailMembers(x: seq<Product>, y: seq<Product>)
    requires x != [] && y != [] && x[0] == y[0]
    requires DistinctIds(x) && DistinctIds(y)
    requires forall e :: e in x <==> e in y
    ensures forall e :: e in x[1..] <==> e in y[1..]
  {
    IdsTail(x);
    IdsTail(y);
    assert x == [x[0]] + x[1..];
    assert y == [y[0]] + y[1..];
    forall e ensures e in x[1..] <==> e in y[1..] {
      if e in x[1..] {
        assert e in x && e != x[0];
      }
      if e in y[1..] {
        assert e in y && e != y[0];
      }
    }
  }

  /** Two lists sorted by the same spec, with the same documents and distinct ids,
      are the same list: the id tiebreaker makes the order unique. */
  lemma {:induction false} SortedUnique(x: seq<Product>, y: seq<Product>, o: SortSpec)
    requires SortedAll(x, o) && SortedAll(y, o)
    requires DistinctIds(x) && DistinctIds(y)
    requires forall e :: e in x <==> e in y
    ensures x == y
  {
    if x != [] {
      assert x[0] in x && y != [] && y[0] in y;
      BeforeIrreflexive(x[0], o);
      BeforeIrreflexive(y[0], o);
      assert !Before(x[0], y[0], o) by {
        var j :| 0 <= j < |y| && y[j] == x[0];
      }
      var k :| 0 <= k < |x| && x[k] == y[0];
      assert !Before(y[0], x[0], o);
      BeforeTrichotomy(x[0], y[0], o);
      assert k == 0;
      var x', y' := x[1..], y[1..];
      IdsTail(x);
      IdsTail(y);
      SortedAllTail(x, o);
      SortedAllTail(y, o);
      TailMembers(x, y);
      SortedUnique(x', y', o);
      assert x == [x[0]] + x' && y == [y[0]] + y';
    }
  }

  // ---------------------------------------------------------------------------
  // filter, slice, page

  /** The `$match` stage: the documents the criteria select, in collection order. */
  function Filter(s: seq<Product>, f: Product -> bool): (r: seq<Product>)
    ensures |r| <= |s|
    ensures forall e :: e in r <==> e in s && f(e)
  {
    if s == [] then []
    else
      assert s == [s[0]] + s[1..];
      if f(s[0]) then [s[0]] + Filter(s[1..], f) else Filter(s[1..], f)
  }

  /** Filtering keeps the ids distinct. */
  lemma {:induction false} FilterIds(s: seq<Product>, f: Product -> bool)
    requires DistinctIds(s)
    ensures DistinctIds(Filter(s, f))
  {
    if s != [] {
      IdsTail(s);
      FilterIds(s[1..], f);
      if f(s[0]) {
        IdsCons(s[0], Filter(s[1..], f));
      }
    }
  }

  /** Documents that pass the same test select the same documents. */
  lemma {:induction false} FilterExtensional(s: seq<Product>, f: Product -> bool, g: Product -> bool)
    requires forall p :: f(p) == g(p)
    ensures Filter(s, f) == Filter(s, g)
  {
    if s != [] {
      FilterExtensional(s[1..], f, g);
    }
  }

  /** `$skip offset` then `$limit size`. */
  function Slice(s: seq<Product>, offset: nat, size: nat): (r: seq<Product>)
    ensures |r| == if offset >= |s| then 0 else if size < |s| - offset then size else |s| - offset
    ensures forall i :: 0 <= i < |r| ==> r[i] == s[offset + i]
  {
    if offset >= |s| then []
    else if size < |s| - offset then s[offset..offset + size]
    else s[offset..]
  }

  /** The matching documents in page order. */
  function Listing(docs: seq<Product>, f: Product -> bool, o: SortSpec): seq<Product> {
    SortBy(Filter(docs, f), o)
  }

  /** `Pageable.getOffset()`: where page number `page` starts. */
  function Offset(page: nat, size: nat): nat {
    page * size
  }

  /** Filtering and sorting keep the ids distinct. */
  lemma ListingIds(docs: seq<Product>, f: Product -> bool, o: SortSpec)
    requires DistinctIds(docs)
    ensures DistinctIds(Listing(docs, f, o))
  {
    FilterIds(docs, f);
    SortByIds(Filter(docs, f), o);
  }

  /** min(size, max(0, total - offset)): how many documents a page starting at
      `offset` holds when `total` documents match. */
  function PageLength(total: nat, offset: nat, size: nat): nat {
    if offset >= total then 0 else if size < total - offset then size else total - offset
  }

  /** `PageRequest.of(page, size, sort)`: the page number, the page size and
      the requested order, which `executePaged` reads back through `getOffset()`,
      `getPageSize()` and `getSort()`. */
  datatype Pageable = Pageable(page: nat, size: nat, sort: SortSpec)

  /** `ProductService.Result`: one page of documents and the count of all matches. */
  datatype PagedResult = PagedResult(products: seq<Product>, totalCount: nat)

  /** `executePaged`: filter, sort by (key, id), skip `page * size`, take `size`,
      and count every match. */
  function ExecutePaged(docs: seq<Product>, f: Product -> bool, o: SortSpec, page: nat, size: nat): (r: PagedResult)
    ensures r.totalCount == |Filter(docs, f)|
    ensures |r.products| == PageLength(r.totalCount, Offset(page, size), size)
  {
    PagedResult(Slice(Listing(docs, f, o), Offset(page, size), size), |Filter(docs, f)|)
  }

  /** Every document on a page is a stored document that the criteria select. */
  lemma PageMatches(docs: seq<Product>, f: Product -> bool, o: SortSpec, page: nat, size: nat)
    ensures var r := ExecutePaged(docs, f, o, page, size);
      forall i :: 0 <= i < |r.products| ==> r.products[i] in docs && f(r.products[i])
  {
    var listing := Listing(docs, f, o);
    var items := Slice(listing, Offset(page, size), size);
    assert forall i :: 0 <= i < |items| ==> items[i] in listing;
  }

  /** A page is in sort order, and the documents on it keep distinct ids. */
  lemma PageSorted(docs: seq<Product>, f: Product -> bool, o: SortSpec, page: nat, size: nat)
    requires DistinctIds(docs)
    ensures SortedAll(ExecutePaged(docs, f, o, page, size).products, o)
    ensures DistinctIds(ExecutePaged(docs, f, o, page, size).products)
  {
    var listing := Listing(docs, f, o);
    ListingIds(docs, f, o);
    SortedAllOf(listing, o);
    SliceSorted(listing, Offset(page, size), size, o);
  }

  /** A slice of a sorted list with distinct ids is itself such a list. */
  lemma SliceSorted(l: seq<Product>, off: nat, size: nat, o: SortSpec)
    requires SortedAll(l, o) && DistinctIds(l)
    ensures SortedAll(Slice(l, off, size), o) && DistinctIds(Slice(l, off, size))
  {
    var items := Slice(l, off, size);
    forall i, j | 0 <= i < j < |items|
      ensures !Before(items[j], items[i], o) && IdKey(items[i]) != IdKey(items[j])
    {
      assert items[i] == l[off + i] && items[j] == l[off + j];
    }
  }

  /** The result depends only on which documents the store holds, not on the
      order it scans them in. */
  lemma ExecutePagedIndependent(d1: seq<Product>, d2: seq<Product>, f: Product -> bool,
                                o: SortSpec, page: nat, size: nat)
    requires DistinctIds(d1) && DistinctIds(d2)
    requires forall e :: e in d1 <==> e in d2
    ensures ExecutePaged(d1, f, o, page, size) == ExecutePaged(d2, f, o, page, size)
  {
    var l1, l2 := Listing(d1, f, o), Listing(d2, f, o);
    ListingIds(d1, f, o);
    ListingIds(d2, f, o);
    SortedAllOf(l1, o);
    SortedAllOf(l2, o);
    SortedUnique(l1, l2, o);
  }

  /** Criteria that select the same documents give the same result. */
  lemma ExecutePagedExtensional(docs: seq<Product>, f: Product -> bool, g: Product -> bool,
                                o: SortSpec, page: nat, size: nat)
    requires forall p :: f(p) == g(p)
    ensures ExecutePaged(docs, f, o, page, size) == ExecutePaged(docs, g, o, page, size)
  {
    FilterExtensional(docs, f, g);
  }

  /** Page number `page` of the results, as a function of the page number. */
  function PagesOf(docs: seq<Product>, f: Product -> bool, o: SortSpec, size: nat): nat -> seq<Product> {
    (page: nat) => ExecutePaged(docs, f, o, page, size).products
  }

  /** Slice number `page` of `l`, `size` documents each. */
  function SlicesOf(l: seq<Product>, size: nat): nat -> seq<Product> {
    (page: nat) => Slice(l, Offset(page, size), size)
  }

  /** The first `n` pages, one after another. */
  function JoinPages(pageAt: nat -> seq<Product>, n: nat): seq<Product> {
    if n == 0 then [] else JoinPages(pageAt, n - 1) + pageAt(n - 1)
  }

  /** The first `n` pages are the listing's first `n * size` documents. */
  lemma PagesUpToPrefix(docs: seq<Product>, f: Product -> bool, o: SortSpec, size: nat, n: nat)
    ensures var l := Listing(docs, f, o);
      JoinPages(PagesOf(docs, f, o, size), n) == l[..if Offset(n, size) < |l| then Offset(n, size) else |l|]
  {
    var l := Listing(docs, f, o);
    forall page: nat ensures PagesOf(docs, f, o, size)(page) == SlicesOf(l, size)(page) {
      PageIsSlice(docs, f, o, page, size);
    }
    JoinPagesExtensional(PagesOf(docs, f, o, size), SlicesOf(l, size), n);
    SlicesPrefix(l, size, n);
  }

  lemma {:induction false} JoinPagesExtensional(p: nat -> seq<Product>, q: nat -> seq<Product>, n: nat)
    requires forall page :: p(page) == q(page)
    ensures JoinPages(p, n) == JoinPages(q, n)
  {
    if n > 0 {
      JoinPagesExtensional(p, q, n - 1);
    }
  }

  /** The first `n` slices join into the leading `n * size` documents. */
  lemma {:induction false} SlicesPrefix(l: seq<Product>, size: nat, n: nat)
    ensures JoinPages(SlicesOf(l, size), n) == l[..if Offset(n, size) < |l| then Offset(n, size) else |l|]
  {
    if n > 0 {
      SlicesPrefix(l, size, n - 1);
      var off := Offset(n - 1, size);
      MulPred(n, size);
      assert SlicesOf(l, size)(n - 1) == Slice(l, off, size);
      SliceAfterPrefix(l, off, size);
    }
  }

  lemma PageIsSlice(docs: seq<Product>, f: Product -> bool, o: SortSpec, page: nat, size: nat)
    ensures ExecutePaged(docs, f, o, page, size).products == Slice(Listing(docs, f, o), Offset(page, size), size)
  {
  }

  lemma MulPred(n: nat, size: nat)
    requires n > 0
    ensures Offset(n - 1, size) + size == Offset(n, size)
  {
  }

  /** A slice continues the prefix that ends where it starts. */
  lemma SliceAfterPrefix(l: seq<Product>, off: nat, size: nat)
    ensures var lo := if off < |l| then off else |l|;
      var hi := if off + size < |l| then off + size else |l|;
      l[..lo] + Slice(l, off, size) == l[..hi]
  {
    var lo := if off < |l| then off else |l|;
    var hi := if off + size < |l| then off + size else |l|;
    if off < |l| {
      assert Slice(l, off, size) == l[off..hi];
      assert l[..off] + l[off..hi] == l[..hi];
    }
  }

  /** Paging through with a fixed page size until the count is covered yields
      every match exactly once, in order: the pages joined together are the whole
      listing, so their lengths add up to the total count and no document shows
      up on two pages. */
  lemma AllPagesCoverMatches(docs: seq<Product>, f: Product -> bool, o: SortSpec, size: nat, n: nat)
    requires DistinctIds(docs)
    requires Offset(n, size) >= |Filter(docs, f)|
    ensures JoinPages(PagesOf(docs, f, o, size), n) == Listing(docs, f, o)
    ensures |JoinPages(PagesOf(docs, f, o, size), n)| == ExecutePaged(docs, f, o, 0, size).totalCount
    ensures DistinctIds(JoinPages(PagesOf(docs, f, o, size), n))
  {
    PagesUpToPrefix(docs, f, o, size, n);
    ListingIds(docs, f, o);
    var l := Listing(docs, f, o);
    assert l[..|l|] == l;
  }
}
