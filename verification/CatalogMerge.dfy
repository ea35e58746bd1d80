/** Federated catalogue search: batches arrive in any order and are merged into one answer. */
module CatalogMerge {
  import opened Bytes
  import opened Order
  import opened Outcomes
  import opened Sequences
  import opened LogicalPath

  /** A search result; `details` stands for the fields the merge never looks at. */
  datatype Item = Item(
    sourceId: int,
    title: seq<byte>,
    infoHash: Option<seq<byte>>,
    magnet: seq<byte>,
    details: seq<byte>)

  datatype Source = Source(id: int, name: seq<byte>)

  /** One finished fetch. */
  datatype Batch = Batch(source: Source, response: Result<seq<Item>, seq<byte>>)

  datatype Failure = Failure(sourceId: int, sourceName: seq<byte>, message: seq<byte>)

  const MAX_RESULTS: nat := 100

  /** Two results are the same torrent when their keys agree. */
  function KeyOf(item: Item): seq<byte>
  {
    match item.infoHash case Some(h) => h case None => item.magnet
  }

  predicate ItemLeq(a: Item, b: Item)
  {
    a.sourceId < b.sourceId || (a.sourceId == b.sourceId && PathLeq(a.title, b.title))
  }

  predicate FailureLeq(a: Failure, b: Failure)
  {
    a.sourceId <= b.sourceId
  }

  lemma MergeOrders()
    ensures Preorder(ItemLeq) && Preorder(FailureLeq)
  {
    PathOrder();
  }

  function Items(b: Batch): seq<Item>
  {
    if b.response.Ok? then b.response.value else []
  }

  function Failures(b: Batch): seq<Failure>
  {
    if b.response.Err? then [Failure(b.source.id, b.source.name, b.response.error)] else []
  }

  /** What all batches contribute, in arrival order. */
  function Gather<T>(batches: seq<Batch>, part: Batch -> seq<T>): seq<T>
  {
    if batches == [] then []
    else
      var n := |batches| - 1;
      Gather(batches[..n], part) + part(batches[n])
  }

  function Keys(items: seq<Item>): set<seq<byte>>
  {
    if items == [] then {} else Keys(items[..|items| - 1]) + {KeyOf(items[|items| - 1])}
  }

  /** The items whose key did not occur before them. */
  function Firsts(items: seq<Item>): seq<Item>
  {
    if items == [] then []
    else
      var n := |items| - 1;
      if KeyOf(items[n]) in Keys(items[..n]) then Firsts(items[..n]) else Firsts(items[..n]) + [items[n]]
  }

  function Limit(requested: Option<nat>): nat
  {
    var limit := match requested case Some(n) => n case None => 50;
    if limit < 1 then 1 else if limit > MAX_RESULTS then MAX_RESULTS else limit
  }

  function Truncated<T>(s: seq<T>, limit: nat): seq<T>
  {
    if |s| <= limit then s else s[..limit]
  }

  function Results(batches: seq<Batch>, limit: nat): seq<Item>
  {
    Truncated(Firsts(Sort(ItemLeq, Gather(batches, Items))), limit)
  }

  function Errors(batches: seq<Batch>): seq<Failure>
  {
    Sort(FailureLeq, Gather(batches, Failures))
  }

  // ---- the merge loop ---------------------------------------------------------------------

  lemma GatherStep<T>(batches: seq<Batch>, part: Batch -> seq<T>, i: nat)
    requires i < |batches|
    ensures Gather(batches[..i + 1], part) == Gather(batches[..i], part) + part(batches[i])
  {
    assert batches[..i + 1][..i] == batches[..i];
  }

  /** `retain` against a growing set. */
  method RetainFirsts(items: seq<Item>) returns (kept: seq<Item>)
    ensures kept == Firsts(items)
  {
    kept := [];
    var seen: set<seq<byte>> := {};
    for i := 0 to |items|
      invariant kept == Firsts(items[..i])
      invariant seen == Keys(items[..i])
    {
      assert items[..i + 1][..i] == items[..i] && items[..i + 1] == items[..i] + [items[i]];
      var key := KeyOf(items[i]);
      if key !in seen {
        seen := seen + {key};
        kept := kept + [items[i]];
      }
    }
    assert items[..|items|] == items;
  }

  /** `search_external_catalogs`, from the collected responses to the returned value. */
  method Merge(responses: seq<Batch>, requested: Option<nat>) returns (results: seq<Item>, errors: seq<Failure>)
    ensures results == Results(responses, Limit(requested))
    ensures errors == Errors(responses)
    ensures |results| <= match requested case None => 50 case Some(n) => if n < 1 then 1 else if n < 100 then n else 100
  {
    results, errors := [], [];
    for i := 0 to |responses|
      invariant results == Gather(responses[..i], Items)
      invariant errors == Gather(responses[..i], Failures)
    {
      GatherStep(responses, Items, i);
      GatherStep(responses, Failures, i);
      match responses[i].response {
        case Ok(items) => results := results + items;
        case Err(message) => errors := errors + [Failure(responses[i].source.id, responses[i].source.name, message)];
      }
    }
    assert responses[..|responses|] == responses;
    results := Sort(ItemLeq, results);
    results := RetainFirsts(results);
    if |results| > Limit(requested) {
      results := results[..Limit(requested)];
    }
    errors := Sort(FailureLeq, errors);
  }

  // ---- arrival order does not matter ---------------------------------------------------------

  /** Source ids are primary keys, and a fetch stamps its items with its own source. */
  ghost predicate WellFormed(batches: seq<Batch>)
  {
    && (forall i, j :: 0 <= i < j < |batches| ==> batches[i].source.id != batches[j].source.id)
    && (forall b :: b in batches ==> Stamped(b))
  }

  ghost predicate Stamped(b: Batch)
  {
    forall item :: item in Items(b) ==> item.sourceId == b.source.id
  }

  /** Everything a batch contributes ranks under its own source. */
  ghost predicate RanksBySource<T(!new)>(leq: (T, T) -> bool, part: Batch -> seq<T>, k: T, id: int, b: Batch)
  {
    b.source.id != id ==> Class(leq, k, part(b)) == []
  }

  lemma {:induction false} AbsentClass<T(!new)>(leq: (T, T) -> bool, part: Batch -> seq<T>, k: T, id: int,
                                                batches: seq<Batch>)
    requires forall b :: b in batches ==> RanksBySource(leq, part, k, id, b) && b.source.id != id
    ensures Class(leq, k, Gather(batches, part)) == []
  {
    if batches != [] {
      var n := |batches| - 1;
      AbsentClass(leq, part, k, id, batches[..n]);
      assert batches[n] in batches;
      ClassConcat(leq, k, Gather(batches[..n], part), part(batches[n]));
    }
  }

  /** The class of a rank is what the one batch of its source contributes to it. */
  lemma {:induction false} GatheredClass<T(!new)>(leq: (T, T) -> bool, part: Batch -> seq<T>, k: T, id: int,
                                                  batches: seq<Batch>, own: Batch)
    requires forall b :: b in batches ==> RanksBySource(leq, part, k, id, b)
    requires forall i, j :: 0 <= i < j < |batches| ==> batches[i].source.id != batches[j].source.id
    requires own in batches && own.source.id == id
    ensures Class(leq, k, Gather(batches, part)) == Class(leq, k, part(own))
  {
    var n := |batches| - 1;
    var front, last := batches[..n], batches[n];
    assert batches == front + [last];
    ClassConcat(leq, k, Gather(front, part), part(last));
    assert last in batches;
    if last == own {
      forall b | b in front ensures b.source.id != id {
        var i :| 0 <= i < n && front[i] == b;
        assert batches[i].source.id != batches[n].source.id;
      }
      AbsentClass(leq, part, k, id, front);
    } else {
      var i :| 0 <= i < n && batches[i] == own;
      assert batches[i].source.id != batches[n].source.id;
      GatheredClass(leq, part, k, id, front, own);
    }
  }

  lemma SameClasses<T(!new)>(leq: (T, T) -> bool, part: Batch -> seq<T>, k: T, id: int, a: seq<Batch>, b: seq<Batch>)
    requires forall x :: x in a ==> RanksBySource(leq, part, k, id, x)
    requires forall i, j :: 0 <= i < j < |a| ==> a[i].source.id != a[j].source.id
    requires forall i, j :: 0 <= i < j < |b| ==> b[i].source.id != b[j].source.id
    requires forall x :: x in a <==> x in b
    ensures Class(leq, k, Gather(a, part)) == Class(leq, k, Gather(b, part))
  {
    if own :| own in a && own.source.id == id {
      GatheredClass(leq, part, k, id, a, own);
      GatheredClass(leq, part, k, id, b, own);
    } else {
      AbsentClass(leq, part, k, id, a);
      AbsentClass(leq, part, k, id, b);
    }
  }

  lemma ItemsRank(k: Item, b: Batch)
    requires Stamped(b)
    ensures RanksBySource(ItemLeq, Items, k, k.sourceId, b)
  {
    if b.source.id != k.sourceId && Class(ItemLeq, k, Items(b)) != [] {
      var x := Class(ItemLeq, k, Items(b))[0];
      ClassMember(ItemLeq, k, Items(b), x);
    }
  }

  lemma FailuresRank(k: Failure, b: Batch)
    ensures RanksBySource(FailureLeq, Failures, k, k.sourceId, b)
  {
    if b.source.id != k.sourceId && Class(FailureLeq, k, Failures(b)) != [] {
      var x := Class(FailureLeq, k, Failures(b))[0];
      ClassMember(FailureLeq, k, Failures(b), x);
    }
  }

  lemma SameMembers<T>(a: seq<T>, b: seq<T>)
    requires multiset(a) == multiset(b)
    ensures forall x :: x in a <==> x in b
  {
    forall x ensures x in a <==> x in b {
      assert x in a <==> x in multiset(a);
      assert x in b <==> x in multiset(b);
    }
  }

  /** Whatever order the fetches finish in, the results and the errors are the same. */
  lemma ArrivalOrderDoesNotMatter(a: seq<Batch>, b: seq<Batch>, limit: nat)
    requires multiset(a) == multiset(b)
    requires WellFormed(a) && WellFormed(b)
    ensures Results(a, limit) == Results(b, limit)
    ensures Errors(a) == Errors(b)
  {
    hide Stamped, ItemLeq, FailureLeq;
    MergeOrders();
    SameMembers(a, b);
    forall k ensures Class(ItemLeq, k, Gather(a, Items)) == Class(ItemLeq, k, Gather(b, Items)) {
      forall x | x in a ensures RanksBySource(ItemLeq, Items, k, k.sourceId, x) { ItemsRank(k, x); }
      SameClasses(ItemLeq, Items, k, k.sourceId, a, b);
    }
    SortByClasses(ItemLeq, Gather(a, Items), Gather(b, Items));
    forall k ensures Class(FailureLeq, k, Gather(a, Failures)) == Class(FailureLeq, k, Gather(b, Failures)) {
      forall x | x in a ensures RanksBySource(FailureLeq, Failures, k, k.sourceId, x) { FailuresRank(k, x); }
      SameClasses(FailureLeq, Failures, k, k.sourceId, a, b);
    }
    SortByClasses(FailureLeq, Gather(a, Failures), Gather(b, Failures));
  }

  // ---- what is kept ------------------------------------------------------------------------------

  /** `items[i]` is the first item with its key. */
  predicate FirstAt(items: seq<Item>, i: nat)
    requires i < |items|
  {
    forall j :: 0 <= j < i ==> KeyOf(items[j]) != KeyOf(items[i])
  }

  lemma {:induction false} KeysMeaning(items: seq<Item>, key: seq<byte>)
    ensures key in Keys(items) <==> exists i :: 0 <= i < |items| && KeyOf(items[i]) == key
  {
    if items != [] {
      var n := |items| - 1;
      KeysMeaning(items[..n], key);
      assert forall i :: 0 <= i < n ==> items[..n][i] == items[i];
      if key in Keys(items[..n]) {
        var i :| 0 <= i < n && KeyOf(items[..n][i]) == key;
        assert KeyOf(items[i]) == key;
      }
      if i :| 0 <= i < |items| && KeyOf(items[i]) == key {
        if i < n { assert KeyOf(items[..n][i]) == key; }
      }
    }
  }

  lemma NewKey(items: seq<Item>)
    requires items != []
    ensures KeyOf(items[|items| - 1]) in Keys(items[..|items| - 1]) <==> !FirstAt(items, |items| - 1)
    ensures forall i :: 0 <= i < |items| - 1 ==> FirstAt(items, i) == FirstAt(items[..|items| - 1], i)
  {
    var n := |items| - 1;
    KeysMeaning(items[..n], KeyOf(items[n]));
    assert forall i :: 0 <= i < n ==> items[..n][i] == items[i];
    if KeyOf(items[n]) in Keys(items[..n]) {
      var i :| 0 <= i < n && KeyOf(items[..n][i]) == KeyOf(items[n]);
      assert KeyOf(items[i]) == KeyOf(items[n]);
    }
  }

  lemma {:induction false} FirstsKeepKeys(items: seq<Item>)
    ensures Keys(Firsts(items)) == Keys(items)
  {
    hide KeyOf;
    if items != [] {
      var n := |items| - 1;
      FirstsKeepKeys(items[..n]);
      if KeyOf(items[n]) !in Keys(items[..n]) {
        assert Firsts(items)[..|Firsts(items)| - 1] == Firsts(items[..n]);
      }
    }
  }

  /** Where the kept items stood. */
  function Places(items: seq<Item>): (at: seq<nat>)
    ensures |at| == |Firsts(items)|
    ensures forall k :: 0 <= k < |at| ==> at[k] < |items|
  {
    if items == [] then []
    else
      var n := |items| - 1;
      if KeyOf(items[n]) in Keys(items[..n]) then Places(items[..n]) else Places(items[..n]) + [n]
  }

  lemma {:induction false} PlacesAscend(items: seq<Item>)
    ensures forall k, l :: 0 <= k < l < |Places(items)| ==> Places(items)[k] < Places(items)[l]
    ensures forall k :: 0 <= k < |Places(items)| ==> Firsts(items)[k] == items[Places(items)[k]]
  {
    hide KeyOf, Keys;
    if items != [] { PlacesAscend(items[..|items| - 1]); }
  }

  /** Exactly the first item of every key is kept, once, in order. */
  lemma {:induction false} PlacesMeaning(items: seq<Item>, i: nat)
    requires i < |items|
    ensures i in Places(items) <==> FirstAt(items, i)
  {
    hide KeyOf, Keys, FirstAt;
    var n := |items| - 1;
    NewKey(items);
    if i < n {
      PlacesMeaning(items[..n], i);
    } else {
      assert forall k :: 0 <= k < |Places(items[..n])| ==> Places(items[..n])[k] < n;
    }
  }

  /** No key twice, and each result ranks no later, by source and title, than any other gathered
      item with its key. */
  lemma ResultsAreFirst(batches: seq<Batch>, limit: nat)
    ensures var results := Results(batches, limit);
      && |results| <= limit
      && (forall k, l :: 0 <= k < l < |results| ==>
            KeyOf(results[k]) != KeyOf(results[l]) && ItemLeq(results[k], results[l]))
      && (forall r :: r in results ==> r in Gather(batches, Items))
      && (forall r, x :: r in results && x in Gather(batches, Items) && KeyOf(x) == KeyOf(r) ==> ItemLeq(r, x))
      && (|results| < limit ==> forall x :: x in Gather(batches, Items) ==> KeyOf(x) in Keys(results))
  {
    hide ItemLeq, Firsts, Places, FirstAt, Keys;
    var gathered := Gather(batches, Items);
    var sorted := Sort(ItemLeq, gathered);
    MergeOrders();
    SortSorts(ItemLeq, gathered);
    PlacesAscend(sorted);
    FirstsKeepKeys(sorted);
    var at := Places(sorted);
    var results := Results(batches, limit);
    forall k, l | 0 <= k < l < |results|
      ensures KeyOf(results[k]) != KeyOf(results[l]) && ItemLeq(results[k], results[l])
    {
      assert results[k] == sorted[at[k]] && results[l] == sorted[at[l]];
      assert at[l] in Places(sorted);
      PlacesMeaning(sorted, at[l]);
      EarlierKey(sorted, at[k], at[l]);
    }
    forall r | r in results
      ensures r in gathered && forall x :: x in gathered && KeyOf(x) == KeyOf(r) ==> ItemLeq(r, x)
    {
      var k :| 0 <= k < |results| && results[k] == r;
      assert at[k] in Places(sorted);
      PlacesMeaning(sorted, at[k]);
      FirstRanksFirst(gathered, at[k]);
    }
    if |results| < limit {
      forall x | x in gathered ensures KeyOf(x) in Keys(results) {
        SortMembers(ItemLeq, gathered, x);
        var i :| 0 <= i < |sorted| && sorted[i] == x;
        KeysMeaning(sorted, KeyOf(x));
      }
    }
  }

  lemma EarlierKey(items: seq<Item>, j: nat, i: nat)
    requires j < i < |items| && FirstAt(items, i)
    ensures KeyOf(items[j]) != KeyOf(items[i])
  {
  }

  lemma FirstRanksFirst(gathered: seq<Item>, i: nat)
    requires i < |Sort(ItemLeq, gathered)| && FirstAt(Sort(ItemLeq, gathered), i)
    ensures var r := Sort(ItemLeq, gathered)[i];
      r in gathered && forall x :: x in gathered && KeyOf(x) == KeyOf(r) ==> ItemLeq(r, x)
  {
    hide ItemLeq;
    var sorted := Sort(ItemLeq, gathered);
    MergeOrders();
    SortSorts(ItemLeq, gathered);
    SortMembers(ItemLeq, gathered, sorted[i]);
    forall x | x in gathered && KeyOf(x) == KeyOf(sorted[i]) ensures ItemLeq(sorted[i], x) {
      SortMembers(ItemLeq, gathered, x);
      var j :| 0 <= j < |sorted| && sorted[j] == x;
      assert j >= i;
    }
  }

  lemma FirstOfItsClass(gathered: seq<Item>, i: nat) returns (k: nat)
    requires i < |Sort(ItemLeq, gathered)| && FirstAt(Sort(ItemLeq, gathered), i)
    ensures var r := Sort(ItemLeq, gathered)[i];
      var ranked := Class(ItemLeq, r, gathered);
      k < |ranked| && ranked[k] == r && FirstAt(ranked, k)
  {
    hide ItemLeq;
    var sorted := Sort(ItemLeq, gathered);
    MergeOrders();
    SortStable(ItemLeq, sorted[i], gathered);
    k := FirstInClass(sorted, sorted[i], i);
  }

  /** `r` stands in its source's own batch in front of every item of the batch that has its title
      and its key. */
  predicate LeadsBatch(own: Batch, r: Item)
  {
    && own.source.id == r.sourceId
    && exists i :: 0 <= i < |Items(own)| && Items(own)[i] == r
                   && forall j :: 0 <= j < i && Items(own)[j].title == r.title ==> KeyOf(Items(own)[j]) != KeyOf(r)
  }

  lemma LeadsItsClass(own: Batch, r: Item, k: nat)
    requires Stamped(own) && own.source.id == r.sourceId
    requires var ranked := Class(ItemLeq, r, Items(own));
      k < |ranked| && ranked[k] == r && FirstAt(ranked, k)
    ensures LeadsBatch(own, r)
  {
    var items := Items(own);
    var i := ClassPlace(ItemLeq, r, items, k);
    PathOrder();
    forall j | 0 <= j < i && items[j].title == r.title ensures KeyOf(items[j]) != KeyOf(r) {
      assert items[j] in items && Equivalent(ItemLeq, r, items[j]);
      assert items[j] in Class(ItemLeq, r, items)[..k];
    }
  }

  lemma OwnBatch(batches: seq<Batch>, r: Item) returns (own: Batch)
    requires WellFormed(batches) && r in Gather(batches, Items)
    ensures own in batches && own.source.id == r.sourceId
    ensures Class(ItemLeq, r, Gather(batches, Items)) == Class(ItemLeq, r, Items(own))
  {
    hide Stamped, ItemLeq;
    own := GatheredFrom(batches, r);
    assert Stamped(own);
    StampedSource(own, r);
    forall b | b in batches ensures RanksBySource(ItemLeq, Items, r, r.sourceId, b) { ItemsRank(r, b); }
    GatheredClass(ItemLeq, Items, r, r.sourceId, batches, own);
  }

  lemma StampedSource(own: Batch, r: Item)
    requires Stamped(own) && r in Items(own)
    ensures own.source.id == r.sourceId
  {
  }

  lemma {:induction false} GatheredFrom(batches: seq<Batch>, r: Item) returns (own: Batch)
    requires r in Gather(batches, Items)
    ensures own in batches && r in Items(own)
  {
    hide Items;
    var n := |batches| - 1;
    if r in Items(batches[n]) { own := batches[n]; } else { own := GatheredFrom(batches[..n], r); }
  }

  /** Each result comes from the batch of its own source, and there it precedes every other item
      with its title and key: ties between equal source and title go by the order in the batch. */
  lemma TiesKeepBatchOrder(batches: seq<Batch>, limit: nat, r: Item) returns (own: Batch)
    requires WellFormed(batches) && r in Results(batches, limit)
    ensures own in batches && LeadsBatch(own, r)
  {
    hide ItemLeq, Firsts, Places, FirstAt, Keys, Stamped, LeadsBatch;
    var gathered := Gather(batches, Items);
    var sorted := Sort(ItemLeq, gathered);
    PlacesAscend(sorted);
    var i :| 0 <= i < |Results(batches, limit)| && Results(batches, limit)[i] == r;
    var place := Places(sorted)[i];
    assert place in Places(sorted);
    PlacesMeaning(sorted, place);
    var k := FirstOfItsClass(gathered, place);
    assert r in gathered by { SortMembers(ItemLeq, gathered, r); }
    own := OwnBatch(batches, r);
    assert Stamped(own);
    LeadsItsClass(own, r, k);
  }

  lemma {:induction false} FirstInClass(items: seq<Item>, rank: Item, i: nat) returns (k: nat)
    requires i < |items| && FirstAt(items, i) && Equivalent(ItemLeq, rank, items[i])
    ensures var ranked := Class(ItemLeq, rank, items);
      k < |ranked| && ranked[k] == items[i] && FirstAt(ranked, k)
  {
    hide ItemLeq, Equivalent;
    var rest := Class(ItemLeq, rank, items[1..]);
    if i == 0 {
      k := 0;
    } else {
      assert FirstAt(items[1..], i - 1) by {
        forall j | 0 <= j < i - 1 ensures KeyOf(items[1..][j]) != KeyOf(items[1..][i - 1]) {
          assert items[1..][j] == items[j + 1];
        }
      }
      k := FirstInClass(items[1..], rank, i - 1);
      if Equivalent(ItemLeq, rank, items[0]) {
        assert Class(ItemLeq, rank, items) == [items[0]] + rest;
        k := k + 1;
      }
    }
  }

  // ---- what the answer consists of -----------------------------------------------------------------

  /** Two items count as one torrent: their info hashes decide, and the magnet stands in for a
      missing hash. */
  predicate SameTorrent(a: Item, b: Item)
  {
    match (a.infoHash, b.infoHash)
    case (Some(x), Some(y)) => x == y
    case (Some(x), None) => x == b.magnet
    case (None, Some(y)) => a.magnet == y
    case (None, None) => a.magnet == b.magnet
  }

  lemma KeysAgree(a: Item, b: Item)
    ensures KeyOf(a) == KeyOf(b) <==> SameTorrent(a, b)
  {
  }

  /** The item is one of a fetch that succeeded. */
  ghost predicate Fetched(batches: seq<Batch>, x: Item)
  {
    exists b :: b in batches && b.response.Ok? && x in b.response.value
  }

  lemma {:induction false} GatheredExactly(batches: seq<Batch>, x: Item)
    ensures x in Gather(batches, Items) <==> Fetched(batches, x)
  {
    if batches != [] {
      var n := |batches| - 1;
      GatheredExactly(batches[..n], x);
      assert batches == batches[..n] + [batches[n]];
    }
  }

  lemma KeyListed(items: seq<Item>, x: Item)
    ensures KeyOf(x) in Keys(items) <==> exists r :: r in items && SameTorrent(r, x)
  {
    KeysMeaning(items, KeyOf(x));
    if i :| 0 <= i < |items| && KeyOf(items[i]) == KeyOf(x) { assert items[i] in items && SameTorrent(items[i], x); }
    if r :| r in items && SameTorrent(r, x) {
      var i :| 0 <= i < |items| && items[i] == r;
      assert KeyOf(items[i]) == KeyOf(x);
    }
  }

  /** The results, without reference to keys: fetched items, no torrent twice, by source and then by
      title, and below the limit no fetched torrent missing. */
  lemma ResultsExactly(batches: seq<Batch>, limit: nat)
    ensures var results := Results(batches, limit);
      && |results| <= limit
      && (forall r :: r in results ==> Fetched(batches, r))
      && (forall k, l :: 0 <= k < l < |results| ==> !SameTorrent(results[k], results[l]))
      && (forall k, l :: 0 <= k < l < |results| ==>
            || results[k].sourceId < results[l].sourceId
            || (results[k].sourceId == results[l].sourceId && PathLeq(results[k].title, results[l].title)))
      && (|results| < limit ==> forall x :: Fetched(batches, x) ==> exists r :: r in results && SameTorrent(r, x))
  {
    ResultsAreFirst(batches, limit);
    hide Results, Fetched, SameTorrent, KeyOf, PathLeq, Gather, Keys;
    var results := Results(batches, limit);
    forall x ensures x in Gather(batches, Items) <==> Fetched(batches, x) { GatheredExactly(batches, x); }
    forall k, l | 0 <= k < l < |results| ensures !SameTorrent(results[k], results[l]) {
      KeysAgree(results[k], results[l]);
    }
    if |results| < limit {
      forall x | Fetched(batches, x) ensures exists r :: r in results && SameTorrent(r, x) { KeyListed(results, x); }
    }
  }

  /** A smaller limit only cuts the end off. */
  lemma LimitOnlyCuts(batches: seq<Batch>, limit: nat, more: nat)
    requires limit <= more
    ensures Results(batches, limit) <= Results(batches, more)
    ensures |Results(batches, limit)| == if |Results(batches, more)| < limit then |Results(batches, more)| else limit
  {
  }

  function FailedOne(b: Batch): nat
  {
    if b.response.Err? then 1 else 0
  }

  lemma {:induction false} FailuresExactly(batches: seq<Batch>, e: Failure)
    ensures e in Gather(batches, Failures) <==>
              exists b :: b in batches && b.response == Err(e.message) && b.source == Source(e.sourceId, e.sourceName)
    ensures |Gather(batches, Failures)| == Sum(batches, FailedOne)
  {
    if batches != [] {
      var n := |batches| - 1;
      FailuresExactly(batches[..n], e);
      assert batches == batches[..n] + [batches[n]];
    }
  }

  /** The errors: one for each fetch that failed, with the id and name of its own source and its own
      message, by source id. */
  lemma ErrorsExactly(batches: seq<Batch>, e: Failure)
    ensures e in Errors(batches) <==>
              exists b :: b in batches && b.response == Err(e.message) && b.source == Source(e.sourceId, e.sourceName)
    ensures |Errors(batches)| == Sum(batches, FailedOne)
    ensures forall i, j :: 0 <= i < j < |Errors(batches)| ==> Errors(batches)[i].sourceId <= Errors(batches)[j].sourceId
  {
    FailuresExactly(batches, e);
    SortMembers(FailureLeq, Gather(batches, Failures), e);
    MergeOrders();
    SortSorts(FailureLeq, Gather(batches, Failures));
    hide Gather, Sort;
  }

  /** Fifty results unless asked otherwise, at least one and at most a hundred. */
  lemma LimitMeaning(requested: Option<nat>)
    ensures Limit(None) == 50 && 1 <= Limit(requested) <= 100
    ensures requested.Some? && 1 <= requested.value <= 100 ==> Limit(requested) == requested.value
    ensures requested.Some? && requested.value > 100 ==> Limit(requested) == 100
  {
  }
}
