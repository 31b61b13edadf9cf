/** Merged offers: the freshest of each identifier, listed by price, whatever the
    order in which sources and offers arrive. */
module Offers {
  import opened Listings
  import opened Sorting

  /** `text` is the offer's serialised form, which tells offers apart. */
  datatype Offer = Offer(id: string, checkedAt: string, text: string, currency: string, price: Option<real>)

  /** The host's order on texts, and its locale order. */
  datatype Host = Host(less: (string, string) -> bool, precedes: (string, string) -> bool)

  ghost predicate StrictTotal(less: (string, string) -> bool) {
    && (forall a, b :: a != b ==> (less(a, b) <==> !less(b, a)))
    && (forall a :: !less(a, a))
    && (forall a, b, c :: less(a, b) && less(b, c) ==> less(a, c))
  }

  ghost predicate Orders(host: Host) {
    StrictTotal(host.less) && StrictTotal(host.precedes)
  }

  /** The offer replaces the one listed so far: checked later, or serialised earlier. */
  predicate Replaces(host: Host, offer: Offer, current: Offer) {
    host.less(current.checkedAt, offer.checkedAt)
      || (offer.checkedAt == current.checkedAt && host.less(offer.text, current.text))
  }

  ghost predicate Told(offers: seq<Offer>) {
    forall a, b :: a in offers && b in offers && a.text == b.text ==> a == b
  }

  /** No offer with this identifier replaces it. */
  ghost predicate Freshest(host: Host, offer: Offer, offers: seq<Offer>) {
    offer in offers && forall other :: other in offers && other.id == offer.id && other != offer ==>
      Replaces(host, offer, other)
  }

  /** By currency, priced before unpriced, then price, then identifier. */
  predicate AtMost(host: Host, a: Offer, b: Offer) {
    if a.currency != b.currency then host.precedes(a.currency, b.currency)
    else if a.price.None? != b.price.None? then b.price.None?
    else
      var x, y := Amount(a), Amount(b);
      if x != y then x < y else a.id == b.id || host.precedes(a.id, b.id)
  }

  function Amount(offer: Offer): real { if offer.price.Some? then offer.price.value else 0.0 }

  function ByPrice(host: Host): (Offer, Offer) -> bool {
    (a: Offer, b: Offer) => AtMost(host, a, b)
  }

  // ---- the freshest of each identifier ----

  /** The map so far: one freshest offer for every identifier seen. */
  ghost predicate Collected(host: Host, offers: seq<Offer>, ids: seq<string>, byId: map<string, Offer>) {
    && Distinct(ids)
    && (forall id :: id in ids <==> id in byId)
    && (forall id :: id in byId ==> byId[id].id == id && Freshest(host, byId[id], offers))
    && (forall o :: o in offers ==> o.id in byId)
  }

  method Collect(host: Host, offers: seq<Offer>) returns (ids: seq<string>, byId: map<string, Offer>)
    requires Orders(host) && Told(offers)
    ensures Collected(host, offers, ids, byId)
  {
    ids, byId := [], map[];
    for i := 0 to |offers|
      invariant Collected(host, offers[..i], ids, byId)
    {
      var offer := offers[i];
      ghost var before := byId;
      if offer.id !in byId {
        ids, byId := ids + [offer.id], byId[offer.id := offer];
      } else if Replaces(host, offer, byId[offer.id]) {
        byId := byId[offer.id := offer];
      }
      assert offers[..i + 1] == offers[..i] + [offer];
      CollectedGrows(host, offers[..i], offer, before, byId);
    }
    assert offers[..|offers|] == offers;
  }

  lemma CollectedGrows(
      host: Host, offers: seq<Offer>, offer: Offer, before: map<string, Offer>, after: map<string, Offer>)
    requires Orders(host) && Told(offers + [offer])
    requires forall id :: id in before ==> before[id].id == id && Freshest(host, before[id], offers)
    requires forall o :: o in offers ==> o.id in before
    requires after
         == if offer.id !in before || Replaces(host, offer, before[offer.id]) then before[offer.id := offer] else before
    ensures forall id :: id in after ==> after[id].id == id && Freshest(host, after[id], offers + [offer])
  {
    var longer := offers + [offer];
    forall id | id in after ensures after[id].id == id && Freshest(host, after[id], longer) {
      if id == offer.id && id in before {
        NewcomerSettled(host, offers, offer, before[id]);
      } else if id == offer.id {
        assert offer in longer;
      } else {
        assert Freshest(host, before[id], offers);
      }
    }
  }

  /** The newcomer and the offer listed so far decide who is freshest. */
  lemma NewcomerSettled(host: Host, offers: seq<Offer>, offer: Offer, current: Offer)
    requires Orders(host) && Told(offers + [offer]) && Freshest(host, current, offers) && current.id == offer.id
    ensures Freshest(host, if Replaces(host, offer, current) then offer else current, offers + [offer])
  {
    var longer := offers + [offer];
    assert offer in longer && current in longer;
    if Replaces(host, offer, current) {
      forall other | other in longer && other.id == offer.id && other != offer ensures Replaces(host, offer, other) {
        if other != current { ReplacingChains(host, offer, current, other); }
      }
    } else if offer != current {
      OneReplaces(host, offer, current);
    }
  }

  lemma ReplacingChains(host: Host, a: Offer, b: Offer, c: Offer)
    requires Orders(host) && Replaces(host, a, b) && Replaces(host, b, c)
    ensures Replaces(host, a, c)
  {
  }

  lemma OneReplaces(host: Host, a: Offer, b: Offer)
    requires Orders(host) && a.text != b.text
    ensures Replaces(host, a, b) || Replaces(host, b, a)
  {
  }

  // ---- the list ----

  function Values(ids: seq<string>, byId: map<string, Offer>): (values: seq<Offer>)
    requires forall id :: id in ids ==> id in byId
    ensures |values| == |ids| && forall i :: 0 <= i < |ids| ==> values[i] == byId[ids[i]]
  {
    if ids == [] then [] else assert ids[0] in ids; [byId[ids[0]]] + Values(ids[1..], byId)
  }

  /** What the merged list holds: exactly the freshest offers, each once, by price. */
  ghost predicate Lists(host: Host, offers: seq<Offer>, unique: seq<Offer>) {
    && (forall k :: 0 <= k < |unique| ==> Freshest(host, unique[k], offers))
    && (forall o :: Freshest(host, o, offers) ==> o in unique)
    && (forall j, k :: 0 <= j < k < |unique| ==> unique[j].id != unique[k].id)
    && Ordered(ByPrice(host), unique)
  }

  /** Nothing given under this identifier was checked later, and of those checked
      then none has an earlier text. */
  ghost predicate Latest(host: Host, offer: Offer, offers: seq<Offer>) {
    offer in offers && forall other :: other in offers && other.id == offer.id ==>
      && !host.less(offer.checkedAt, other.checkedAt)
      && (other.checkedAt == offer.checkedAt ==> !host.less(other.text, offer.text))
  }

  /** Of two offers the first is listed first: by its currency, then as the one
      with a price, then as the cheaper one, then by its identifier. */
  predicate ListedBefore(host: Host, a: Offer, b: Offer) {
    || host.precedes(a.currency, b.currency)
    || (a.currency == b.currency && a.price.Some? && b.price.None?)
    || (a.currency == b.currency && a.price.Some? && b.price.Some? && a.price.value < b.price.value)
    || (a.currency == b.currency && a.price == b.price && host.precedes(a.id, b.id))
  }

  /** The list holds the latest offer of every identifier, and its neighbours and
      all other pairs are in order. */
  ghost predicate ListsLatest(host: Host, offers: seq<Offer>, unique: seq<Offer>) {
    && (forall o :: o in unique <==> Latest(host, o, offers))
    && (forall o :: o in offers ==> exists k :: 0 <= k < |unique| && unique[k].id == o.id)
    && (forall j, k :: 0 <= j < k < |unique| ==> ListedBefore(host, unique[j], unique[k]))
  }

  lemma LatestByFields(host: Host, offer: Offer, offers: seq<Offer>)
    requires Orders(host) && Told(offers)
    ensures Freshest(host, offer, offers) <==> Latest(host, offer, offers)
  {
    if offer in offers {
      forall other | other in offers && other.id == offer.id && other != offer
        ensures Replaces(host, offer, other) <==>
          !host.less(offer.checkedAt, other.checkedAt)
            && (other.checkedAt == offer.checkedAt ==> !host.less(other.text, offer.text))
      {
        assert other.text != offer.text;
      }
    }
  }

  lemma OrderByFields(host: Host, a: Offer, b: Offer)
    requires Orders(host) && a.id != b.id
    ensures AtMost(host, a, b) <==> ListedBefore(host, a, b)
  {
  }

  lemma ListIsLatest(host: Host, offers: seq<Offer>, unique: seq<Offer>, ids: seq<string>, byId: map<string, Offer>)
    requires Orders(host) && Told(offers) && Lists(host, offers, unique) && Collected(host, offers, ids, byId)
    ensures ListsLatest(host, offers, unique)
  {
    ByPriceIsTotal(host);
    forall o ensures o in unique <==> Latest(host, o, offers) {
      LatestByFields(host, o, offers);
      if o in unique { var k :| 0 <= k < |unique| && unique[k] == o; }
    }
    forall o | o in offers ensures exists k :: 0 <= k < |unique| && unique[k].id == o.id {
      assert Freshest(host, byId[o.id], offers) && byId[o.id] in unique;
    }
    forall j, k | 0 <= j < k < |unique| ensures ListedBefore(host, unique[j], unique[k]) {
      OrderedPairs(ByPrice(host), unique, j, k);
      OrderByFields(host, unique[j], unique[k]);
    }
  }

  method UniqueOffers(host: Host, offers: seq<Offer>) returns (unique: seq<Offer>)
    requires Orders(host) && Told(offers)
    ensures Lists(host, offers, unique)
    ensures ListsLatest(host, offers, unique)
  {
    var ids, byId := Collect(host, offers);
    var values := Values(ids, byId);
    ValuesAreFreshest(host, offers, ids, byId, values);
    unique := Sort(ByPrice(host), values);
    SortKeepsPositions(ByPrice(host), values, unique);
    SortKeeps(ByPrice(host), values);
    ByPriceIsTotal(host);
    SortOrders(ByPrice(host), values);
    SortedLists(host, offers, values, unique);
    ListIsLatest(host, offers, unique, ids, byId);
  }

  lemma ValuesAreFreshest(
      host: Host, offers: seq<Offer>, ids: seq<string>, byId: map<string, Offer>, values: seq<Offer>)
    requires Orders(host) && Collected(host, offers, ids, byId) && values == Values(ids, byId)
    ensures forall k :: 0 <= k < |values| ==> Freshest(host, values[k], offers)
    ensures forall o :: Freshest(host, o, offers) ==> o in values
    ensures forall j, k :: 0 <= j < k < |values| ==> values[j].id != values[k].id
  {
    forall k | 0 <= k < |values| ensures Freshest(host, values[k], offers) && values[k].id == ids[k] {
      assert ids[k] in ids;
    }
    forall o | Freshest(host, o, offers) ensures o in values {
      var id := o.id;
      assert id in byId && id in ids;
      var k :| 0 <= k < |ids| && ids[k] == id;
      OneFreshest(host, offers, o, byId[id]);
      assert values[k] == o;
    }
  }

  lemma OneFreshest(host: Host, offers: seq<Offer>, a: Offer, b: Offer)
    requires Orders(host) && Freshest(host, a, offers) && Freshest(host, b, offers) && a.id == b.id
    ensures a == b
  {
    if a != b { NotBoth(host, a, b); }
  }

  lemma NotBoth(host: Host, a: Offer, b: Offer)
    requires Orders(host) && Replaces(host, a, b)
    ensures !Replaces(host, b, a)
  {
  }

  lemma SortedLists(host: Host, offers: seq<Offer>, values: seq<Offer>, unique: seq<Offer>)
    requires forall k :: 0 <= k < |values| ==> Freshest(host, values[k], offers)
    requires forall o :: Freshest(host, o, offers) ==> o in values
    requires forall j, k :: 0 <= j < k < |values| ==> values[j].id != values[k].id
    requires forall k :: 0 <= k < |unique| ==> unique[k] in values
    requires forall k :: 0 <= k < |values| ==> values[k] in unique
    requires Distinct(values) ==> Distinct(unique)
    requires Ordered(ByPrice(host), unique)
    ensures Lists(host, offers, unique)
  {
    assert Distinct(values);
    forall j, k | 0 <= j < k < |unique| ensures unique[j].id != unique[k].id {
      var x :| 0 <= x < |values| && values[x] == unique[j];
      var y :| 0 <= y < |values| && values[y] == unique[k];
      assert x != y;
    }
  }

  lemma ByPriceIsTotal(host: Host)
    requires Orders(host)
    ensures Total(ByPrice(host)) && Transitive(ByPrice(host))
  {
  }

  // ---- order independence ----

  /** The same offers in any order, from any sources and however often, give the
      same list. */
  lemma SameOffersSameList(host: Host, a: seq<Offer>, b: seq<Offer>, listA: seq<Offer>, listB: seq<Offer>)
    requires Orders(host) && (forall o :: o in a <==> o in b)
    requires Lists(host, a, listA) && Lists(host, b, listB)
    ensures listA == listB
  {
    forall o ensures Freshest(host, o, a) <==> Freshest(host, o, b) {
    }
    forall o ensures o in listA <==> o in listB {
      if o in listA { var k :| 0 <= k < |listA| && listA[k] == o; }
      if o in listB { var k :| 0 <= k < |listB| && listB[k] == o; }
    }
    OneOrder(host, listA, listB);
  }

  /** Two ordered lists of the same offers are the same list. */
  lemma {:induction false} OneOrder(host: Host, a: seq<Offer>, b: seq<Offer>)
    requires Orders(host) && Ordered(ByPrice(host), a) && Ordered(ByPrice(host), b)
    requires forall j, k :: 0 <= j < k < |a| ==> a[j].id != a[k].id
    requires forall j, k :: 0 <= j < k < |b| ==> b[j].id != b[k].id
    requires forall o :: o in a <==> o in b
    ensures a == b
    decreases |a|
  {
    if a == [] {
      if b != [] { HeadIsMember(b); }
    } else {
      assert a[0] in a && b != [];
      SameHead(host, a, b);
      forall o ensures o in a[1..] <==> o in b[1..] {
        TailMembers(a, o);
        TailMembers(b, o);
      }
      OneOrder(host, a[1..], b[1..]);
      assert a == [a[0]] + a[1..] && b == [b[0]] + b[1..];
    }
  }

  lemma HeadIsMember(list: seq<Offer>)
    requires list != []
    ensures list[0] in list
  {
  }

  lemma TailMembers(list: seq<Offer>, o: Offer)
    requires list != [] && forall j, k :: 0 <= j < k < |list| ==> list[j].id != list[k].id
    ensures o in list[1..] <==> o in list && o != list[0]
  {
    if o in list[1..] {
      var k :| 0 <= k < |list[1..]| && list[1..][k] == o;
      assert list[k + 1] == o;
    }
  }

  lemma SameHead(host: Host, a: seq<Offer>, b: seq<Offer>)
    requires Orders(host) && a != [] && b != [] && Ordered(ByPrice(host), a) && Ordered(ByPrice(host), b)
    requires forall o :: o in a <==> o in b
    requires forall j, k :: 0 <= j < k < |a| ==> a[j].id != a[k].id
    ensures a[0] == b[0]
  {
    ByPriceIsTotal(host);
    assert a[0] in b && b[0] in a;
    var j :| 0 <= j < |b| && b[j] == a[0];
    var k :| 0 <= k < |a| && a[k] == b[0];
    HeadIsLeast(ByPrice(host), b, j);
    HeadIsLeast(ByPrice(host), a, k);
    BothWays(host, a[0], b[0]);
  }

  lemma BothWays(host: Host, a: Offer, b: Offer)
    requires Orders(host) && AtMost(host, a, b) && AtMost(host, b, a)
    ensures a.id == b.id
  {
  }
}
