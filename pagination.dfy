/**
 * The paginated fetch shared by the asset and the market fetchers: GET the
 * endpoint at offsets 0, Limit, 2 * Limit, ... and concatenate the pages,
 * stopping after an empty page or after the first page shorter than Limit.
 * A failed request makes the whole fetch yield no records.
 */
module Pagination {
  import opened Wrappers

  /** Records asked for per request. */
  const Limit: nat := 2000

  /** The reply to one GET: the `data` array, or a transport or HTTP-status error. */
  datatype Response<T> = Page(records: seq<T>) | Failed

  /**
   * The remote collection as the fetcher sees it: the request at offset
   * k * Limit is answered by pages[k], and every request past the list by an
   * empty page.
   */
  datatype Endpoint<T> = Endpoint(pages: seq<Response<T>>) {

    function Reply(offset: nat): Response<T> {
      if offset % Limit == 0 && offset / Limit < |pages| then pages[offset / Limit] else Page([])
    }
  }

  /** A page after which the loop asks for the next one. */
  predicate Full<T>(r: Response<T>) {
    r.Page? && |r.records| >= Limit
  }

  /** The records a reply carries; an error carries none. */
  function Records<T>(r: Response<T>): seq<T> {
    if r.Page? then r.records else []
  }

  /** The concatenated records of a run of replies. */
  function Concat<T>(rs: seq<Response<T>>): seq<T>
    decreases |rs|
  {
    if rs == [] then [] else Records(rs[0]) + Concat(rs[1..])
  }

  /** What the loop yields from the k-th request on; `None` when a request fails. */
  function Collect<T>(e: Endpoint<T>, k: nat): Option<seq<T>>
    decreases |e.pages| - k
  {
    if k >= |e.pages| then Some([])
    else match e.pages[k]
      case Failed => None
      case Page(data) =>
        if data == [] then Some([])
        else if |data| < Limit then Some(data)
        else match Collect(e, k + 1)
          case None => None
          case Some(rest) => Some(data + rest)
  }

  /** `prefix` before the records of a fetch that has not failed. */
  function After<T>(prefix: seq<T>, tail: Option<seq<T>>): Option<seq<T>> {
    match tail
    case None => None
    case Some(rest) => Some(prefix + rest)
  }

  lemma AfterNothing<T>(tail: Option<seq<T>>)
    ensures After([], tail) == tail
  {
    if tail.Some? {
      assert [] + tail.value == tail.value;
    }
  }

  lemma AfterAfter<T>(a: seq<T>, b: seq<T>, tail: Option<seq<T>>)
    ensures After(a, After(b, tail)) == After(a + b, tail)
  {
    if tail.Some? {
      assert a + (b + tail.value) == (a + b) + tail.value;
    }
  }

  lemma ReplyAt<T>(e: Endpoint<T>, k: nat)
    ensures e.Reply(k * Limit) == if k < |e.pages| then e.pages[k] else Page([])
  {
  }

  /**
   * The fetch loop of `fetch_data_from_coincap` and `fetch_exchange_markets`.
   * `offsets` are the offsets requested, in order: 0, Limit, 2 * Limit, ...;
   * every page but the last one asked for was full, and the last was not.
   */
  method FetchAll<T>(e: Endpoint<T>) returns (records: seq<T>, ghost offsets: seq<nat>)
    ensures records == Collect(e, 0).GetOr([])
    ensures |offsets| >= 1
    ensures forall i :: 0 <= i < |offsets| ==> offsets[i] == i * Limit
    ensures forall i :: 0 <= i < |offsets| - 1 ==> Full(e.Reply(offsets[i]))
    ensures !Full(e.Reply(offsets[|offsets| - 1]))
  {
    records := [];
    offsets := [];
    var offset: nat := 0;
    ghost var k: nat := 0;
    AfterNothing(Collect(e, 0));
    while true
      invariant offset == k * Limit && k <= |e.pages|
      invariant Collect(e, 0) == After(records, Collect(e, k))
      invariant |offsets| == k
      invariant forall i :: 0 <= i < k ==> offsets[i] == i * Limit && Full(e.Reply(offsets[i]))
      decreases |e.pages| - k
    {
      ReplyAt(e, k);
      var response := e.Reply(offset);
      offsets := offsets + [offset];
      if response.Failed? {
        return [], offsets;
      }
      var data := response.records;
      if data == [] {
        break;
      }
      ghost var before := records;
      records := records + data;
      offset := offset + Limit;
      if |data| < Limit {
        break;
      }
      assert Collect(e, k) == After(data, Collect(e, k + 1));
      AfterAfter(before, data, Collect(e, k + 1));
      k := k + 1;
    }
  }

  /**
   * Where the fetch stops and what it yields, independently of the loop: let
   * m be the number of full pages before the first page that is not full (or
   * before the end of the collection). The fetch fails exactly when that page
   * is an error; otherwise it yields the m full pages and that page, in order.
   */
  lemma FetchStopsAtFirstShortPage<T>(e: Endpoint<T>, m: nat)
    requires m <= |e.pages|
    requires forall k :: 0 <= k < m ==> Full(e.pages[k])
    requires m == |e.pages| || !Full(e.pages[m])
    ensures Collect(e, 0) ==
              if m < |e.pages| && e.pages[m].Failed? then None
              else Some(Concat(e.pages[..m]) + if m < |e.pages| then Records(e.pages[m]) else [])
  {
    CollectFrom(e, 0, m);
    assert e.pages[0..m] == e.pages[..m];
  }

  lemma {:induction false} CollectFrom<T>(e: Endpoint<T>, k: nat, m: nat)
    requires k <= m <= |e.pages|
    requires forall j :: k <= j < m ==> Full(e.pages[j])
    requires m == |e.pages| || !Full(e.pages[m])
    ensures Collect(e, k) ==
              if m < |e.pages| && e.pages[m].Failed? then None
              else Some(Concat(e.pages[k..m]) + if m < |e.pages| then Records(e.pages[m]) else [])
    decreases m - k
  {
    if k < m {
      CollectFrom(e, k + 1, m);
      assert e.pages[k..m][1..] == e.pages[k + 1..m];
      var tail := if m < |e.pages| then Records(e.pages[m]) else [];
      assert Records(e.pages[k]) + (Concat(e.pages[k + 1..m]) + tail)
          == (Records(e.pages[k]) + Concat(e.pages[k + 1..m])) + tail;
    } else {
      assert e.pages[k..m] == [];
      assert Concat(e.pages[k..m]) == [];
      if m == |e.pages| {
        assert Concat(e.pages[k..m]) + [] == [];
      } else if e.pages[m].Page? {
        assert |e.pages[m].records| < Limit;
        assert [] + Records(e.pages[m]) == Records(e.pages[m]);
      }
    }
  }

  /** One full page followed by an empty one yields exactly that page. */
  lemma FullThenEmptyExample<T>(full: seq<T>)
    requires |full| == Limit
    ensures Collect(Endpoint([Page(full), Page([])]), 0) == Some(full)
  {
    var e := Endpoint([Page(full), Page([])]);
    assert Collect(e, 1) == Some([]);
    assert full + [] == full;
  }

  /** A short first page ends the fetch: nothing after it is read. */
  lemma ShortFirstPageExample<T>(short: seq<T>, later: seq<Response<T>>)
    requires 0 < |short| < Limit
    ensures Collect(Endpoint([Page(short)] + later), 0) == Some(short)
  {
  }
}
