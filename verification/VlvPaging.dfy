/** Paginated search with the virtual list view control, against a server with a fixed sorted list. */
module VlvPaging {
  import opened Options
  import opened ClientControls

  datatype Error = VlvError | ProtocolError

  datatype Reply<T> = Entries(items: seq<T>, response: seq<Response>) | Fails(error: Error)

  datatype Page = Page(page: int, entry: int, size: int, results: Option<nat>, lastPage: Option<nat>) {
    predicate IsLastInPage() { size == entry }
  }

  datatype Found<T> = Found(item: T, page: Page)

  class VlvServer<T> {
    const items: seq<T>
    /** Whether an offset behind the end is an error, or an empty page. */
    const rangeError: bool
    /** The context identifier sent with the k-th answer. */
    const contexts: nat -> Option<string>
    var requests: seq<seq<Control>>

    constructor (items: seq<T>, rangeError: bool, contexts: nat -> Option<string>)
      ensures this.items == items && this.rangeError == rangeError && this.contexts == contexts && requests == []
    {
      this.items, this.rangeError, this.contexts, requests := items, rangeError, contexts, [];
    }

    /** The answer to the k-th request: the window around the offset, if there is one list to view. */
    function Answer(k: nat, controls: seq<Control>): Reply<T> {
      var views := Of(controls, VLV_REQUEST);
      if |Of(controls, SORT_REQUEST)| != 1 || |views| != 1 || !views[0].Vlv? then Fails(ProtocolError)
      else
        var v := views[0];
        if v.contextId != None && (k == 0 || v.contextId != contexts(k - 1)) then Fails(ProtocolError)
        else if v.offset < 1 || v.beforeCount < 0 || v.afterCount < 0 then Fails(ProtocolError)
        else if v.offset > |items| && |items| > 0 && rangeError then Fails(VlvError)
        else
          var from := if v.offset > |items| then |items|
                      else if v.offset <= v.beforeCount then 0
                      else v.offset - 1 - v.beforeCount;
          var to := if v.offset + v.afterCount <= |items| then v.offset + v.afterCount else |items|;
          Entries(items[from..to], [VlvResponse(|items|, contexts(k))])
    }

    method Search(controls: Controls) returns (reply: Reply<T>)
      requires controls.server.Some?
      modifies this, controls`response
      ensures requests == old(requests) + [controls.server.value.items]
      ensures reply == Answer(|old(requests)|, controls.server.value.items)
      ensures controls.response == if reply.Entries? then Some(reply.response) else old(controls.response)
    {
      reply := Answer(|requests|, controls.server.value.items);
      requests := requests + [controls.server.value.items];
      if reply.Entries? {
        controls.response := Some(reply.response);
      }
    }
  }

  /** The least number of pages that hold all entries. */
  function PageCount(entries: nat, size: nat): (pages: nat)
    requires size >= 1
    ensures pages * size >= entries && (pages - 1) * size < entries + (if pages == 0 then 1 else 0)
  {
    entries / size + if entries % size == 0 then 0 else 1
  }

  /** The k-th entry of the list, from 0, as the caller is to see it. */
  function Numbered<T>(items: seq<T>, size: nat, k: nat): Found<T>
    requires size >= 1 && k < |items|
  {
    Found(items[k], Page(1 + k / size, 1 + k % size, size, Some(|items|), Some(PageCount(|items|, size))))
  }

  /** A request with one sort and one list-view control, and the caller's other controls untouched. */
  predicate Proper(request: seq<Control>, given: seq<Control>, keys: string, vlv: Control) {
    && Of(request, SORT_REQUEST) == [Sort(keys)] && Of(request, VLV_REQUEST) == [vlv]
    && Without(Without(request, SORT_REQUEST), VLV_REQUEST) == Without(Without(given, SORT_REQUEST), VLV_REQUEST)
  }

  /** The view the j-th request asks for: the next page, in the context of the answer before. */
  function View<T>(server: VlvServer<T>, size: int, j: nat, first: nat): Control {
    Vlv(0, size - 1, j * size + 1, if j == 0 then None else server.contexts(first + j - 1))
  }

  // ----- positions and pages -----

  /** How many entries lie before a page. */
  function Offset(page: int, size: int): int { (page - 1) * size }

  lemma MulMonotone(a: int, b: int, size: int)
    requires a <= b && size >= 0
    ensures a * size <= b * size
  {
    assert (b - a) * size >= 0;
  }

  lemma Quotient(n: nat, size: int, q: int, r: int)
    requires size >= 1 && n == q * size + r && 0 <= r < size
    ensures n / size == q && n % size == r
  {
    var d := n / size;
    assert n == d * size + n % size;
    assert (d + 1) * size == d * size + size && (q + 1) * size == q * size + size;
    if d < q {
      MulMonotone(d + 1, q, size);
    } else if d > q {
      MulMonotone(q + 1, d, size);
    }
  }

  lemma NextPage(page: int, size: int)
    ensures Offset(page + 1, size) == Offset(page, size) + size && Offset(1, size) == 0
  {
  }

  lemma NothingYet<T>(server: VlvServer<T>, size: int, given: seq<Control>, keys: string, first: nat)
    ensures (size >= 1 ==> Delivered([], server.items, size)) && Asked(server, [], given, keys, size, first)
    ensures Offset(1, size) == 0
  {
  }

  /** The entries of the first pages, all numbered. */
  ghost predicate Delivered<T>(results: seq<Found<T>>, items: seq<T>, size: nat)
    requires size >= 1
  {
    |results| <= |items| && forall k :: 0 <= k < |results| ==> results[k] == Numbered(items, size, k)
  }

  lemma DeliverOne<T>(results: seq<Found<T>>, items: seq<T>, size: nat, page: nat, entry: nat, found: Found<T>)
    requires size >= 1 && page >= 1 && entry < size && |results| == Offset(page, size) + entry < |items|
    requires Offset(page, size) >= 0
    requires Delivered(results, items, size)
    requires found ==
             Found(items[|results|], Page(page, entry + 1, size, Some(|items|), Some(PageCount(|items|, size))))
    ensures Delivered(results + [found], items, size)
  {
    Quotient(|results|, size, page - 1, entry);
  }

  /** When the loop stops: behind the end, or exactly at it. */
  lemma AtEnd(n: nat, size: int, page: int)
    requires size >= 1 && page >= 1 && Offset(page, size) >= n && (page > 1 ==> Offset(page - 1, size) < n)
    ensures Offset(page, size) > n ==> n / size == page - 2 && n % size != 0
    ensures Offset(page, size) == n ==> n / size == page - 1 && n % size == 0
  {
    NextPage(page - 1, size);
    if Offset(page, size) > n {
      Quotient(n, size, page - 2, n - Offset(page - 1, size));
    } else {
      Quotient(n, size, page - 1, 0);
    }
  }

  /** A position and its numbers determine each other; the last entry, and no page behind it, is on the last page. */
  lemma NumberingExact<T>(items: seq<T>, size: nat, k: nat)
    requires size >= 1 && k < |items|
    ensures var p := Numbered(items, size, k).page;
            && 1 <= p.entry <= size && Offset(p.page, size) + p.entry == k + 1
            && 1 <= p.page <= PageCount(|items|, size)
            && (k == |items| - 1 ==> p.lastPage == Some(p.page))
            && (p.IsLastInPage() <==> (k + 1) % size == 0)
  {
    var p := Numbered(items, size, k).page;
    assert k == (k / size) * size + k % size;
    var n := |items|;
    if p.page > PageCount(n, size) {
      MulMonotone(PageCount(n, size), p.page - 1, size);
    }
    if k == n - 1 && p.page < PageCount(n, size) {
      MulMonotone(p.page, PageCount(n, size) - 1, size);
      NextPage(p.page, size);
    }
    if p.entry == size {
      NextPage(p.page, size);
      Quotient(k + 1, size, p.page, 0);
    } else {
      Quotient(k + 1, size, p.page - 1, p.entry);
    }
  }

  // ----- requests and answers -----

  /** What stays true of the client's list: one sort control, the caller's other controls. */
  predicate Prepared(controls: seq<Control>, given: seq<Control>, keys: string) {
    && Of(controls, SORT_REQUEST) == [Sort(keys)]
    && Without(Without(controls, SORT_REQUEST), VLV_REQUEST) == Without(Without(given, SORT_REQUEST), VLV_REQUEST)
  }

  lemma SetSort(given: seq<Control>, keys: string)
    ensures Prepared(Set(given, Sort(keys)), given, keys)
  {
    hide Of, Without, Set;
    SetIsOne(given, Sort(keys), SORT_REQUEST);
  }

  lemma SetView(controls: seq<Control>, given: seq<Control>, keys: string, vlv: Control)
    requires vlv.Vlv? && Prepared(controls, given, keys)
    ensures Proper(Set(controls, vlv), given, keys, vlv) && Prepared(Set(controls, vlv), given, keys)
  {
    hide Of, Without, Set;
    SetIsOne(controls, vlv, SORT_REQUEST);
    WithoutTwice(Set(controls, vlv), VLV_REQUEST, SORT_REQUEST);
    WithoutTwice(controls, VLV_REQUEST, SORT_REQUEST);
    assert |SORT_REQUEST| != |VLV_REQUEST|;
  }

  /** The j-th request asks for the j-th page. */
  ghost predicate Asked<T>(server: VlvServer<T>, sent: seq<seq<Control>>, given: seq<Control>, keys: string, size: int,
                           first: nat) {
    forall j :: 0 <= j < |sent| ==> Proper(sent[j], given, keys, View(server, size, j, first))
  }

  lemma AskMore<T>(server: VlvServer<T>, sent: seq<seq<Control>>, given: seq<Control>, keys: string, size: int,
                   first: nat, request: seq<Control>, contextId: Option<string>)
    requires Asked(server, sent, given, keys, size, first)
    requires contextId == if sent == [] then None else server.contexts(first + |sent| - 1)
    requires Proper(request, given, keys, Vlv(0, size - 1, Offset(|sent| + 1, size) + 1, contextId))
    ensures Asked(server, sent + [request], given, keys, size, first)
  {
  }

  /** The answer to a request for the entries from an offset on. */
  lemma AnswerToView<T>(server: VlvServer<T>, request: seq<Control>, given: seq<Control>, keys: string, vlv: Control,
                        k: nat)
    requires vlv.Vlv? && Proper(request, given, keys, vlv)
    requires vlv.beforeCount == 0 && vlv.offset >= 1
    requires vlv.contextId == None || (k > 0 && vlv.contextId == server.contexts(k - 1))
    ensures var n, from := |server.items|, vlv.offset - 1;
            server.Answer(k, request) ==
            if vlv.afterCount < 0 then Fails(ProtocolError)
            else if from >= n > 0 && server.rangeError then Fails(VlvError)
            else Entries(if from >= n then []
                         else if from + vlv.afterCount + 1 <= n then server.items[from..from + vlv.afterCount + 1]
                         else server.items[from..],
                         [VlvResponse(n, server.contexts(k))])
    ensures Find([VlvResponse(|server.items|, server.contexts(k))], VLV_RESPONSE) ==
              Some(VlvResponse(|server.items|, server.contexts(k)))
  {
    assert server.items[|server.items|..|server.items|] == [];
  }

  /** The loop over the entries of one answer: the first entry of all settles length and last page. */
  method ReadPage<T>(ghost items: seq<T>, reply: seq<T>, c: Controls, page: nat, size: nat,
                     known: (Option<nat>, Option<nat>), earlier: seq<Found<T>>)
      returns (results: seq<Found<T>>, length: Option<nat>, lastPage: Option<nat>)
    requires size >= 1 && page >= 1 && 0 <= Offset(page, size) == |earlier| && Delivered(earlier, items, size)
    requires |reply| <= size && |earlier| + |reply| <= |items|
    requires reply == items[|earlier|..|earlier| + |reply|]
    requires c.Get(VLV_RESPONSE).Some? && c.Get(VLV_RESPONSE).value.VlvResponse?
    requires c.Get(VLV_RESPONSE).value.contentCount == |items|
    requires known == if page == 1 then (None, None) else (Some(|items|), Some(PageCount(|items|, size)))
    ensures |results| == |earlier| + |reply| && Delivered(results, items, size)
    ensures reply != [] ==> length == Some(|items|) && lastPage == Some(PageCount(|items|, size))
    ensures reply == [] ==> (length, lastPage) == known
  {
    hide Offset, PageCount, Delivered, Controls.Get;
    ghost var n := |items|;
    length, lastPage := known.0, known.1;
    results := earlier;
    var entry := 0;
    while entry < |reply|
      invariant 0 <= entry <= |reply|
      invariant entry > 0 ==> length == Some(n) && lastPage == Some(PageCount(n, size))
      invariant entry == 0 ==> (length, lastPage) == known
      invariant |results| == |earlier| + entry && Delivered(results, items, size)
    {
      if lastPage.None? {
        var vlv := c.Get(VLV_RESPONSE);
        length := Some(vlv.value.contentCount);
        lastPage := Some(PageCount(length.value, size));
      }
      var found := Found(reply[entry], Page(page, entry + 1, size, length, lastPage));
      DeliverOne(results, items, size, page, entry, found);
      results := results + [found];
      entry := entry + 1;
    }
  }

  /** One request for a page, with its answer. */
  method Ask<T>(server: VlvServer<T>, c: Controls, size: int, page: nat, ghost contextId: Option<string>,
                ghost given: seq<Control>, ghost keys: string,
                ghost sent: seq<seq<Control>>, ghost first: nat) returns (reply: Reply<T>)
    requires c.server.Some? && page >= 1 && |sent| == page - 1 && Offset(page, size) >= 0
    requires |server.requests| == first + page - 1
    requires contextId == if page == 1 then None else server.contexts(first + page - 2)
    requires Proper(c.server.value.items, given, keys, Vlv(0, size - 1, Offset(page, size) + 1, contextId))
    requires Asked(server, sent, given, keys, size, first)
    modifies server, c`response
    ensures server.requests == old(server.requests) + [c.server.value.items]
    ensures Asked(server, sent + [c.server.value.items], given, keys, size, first)
    ensures var n, from := |server.items|, Offset(page, size);
            if size < 1 then reply == Fails(ProtocolError)
            else if from >= n > 0 && server.rangeError then reply == Fails(VlvError)
            else
              && reply.Entries?
              && reply.items == (if from >= n then []
                                 else if from + size <= n then server.items[from..from + size]
                                 else server.items[from..])
              && c.Get(VLV_RESPONSE) == Some(VlvResponse(n, server.contexts(first + page - 1)))
  {
    hide Of, Without, Set, Find, Proper, Offset, Asked, Given, VlvServer.Answer, Control.Type;
    ghost var view := Vlv(0, size - 1, Offset(page, size) + 1, contextId);
    AnswerToView(server, c.server.value.items, given, keys, view, first + page - 1);
    AskMore(server, sent, given, keys, size, first, c.server.value.items, contextId);
    reply := server.Search(c);
  }

  /** Connection.search_paginated, run to its end. */
  method SearchPaginated<T>(server: VlvServer<T>, size: int, keys: string, controls: Controls?)
      returns (results: seq<Found<T>>, error: Option<Error>, ghost sent: seq<seq<Control>>)
    requires controls != null ==> controls.server.Some?
    modifies server, controls
    ensures size >= 1 ==> |results| == |server.items| && Delivered(results, server.items, size)
    ensures size < 1 ==> results == [] && error == Some(ProtocolError)
    ensures size >= 1 ==>
              error ==
              if |server.items| > 0 && |server.items| % size == 0 && server.rangeError then Some(VlvError) else None
    ensures server.requests == old(server.requests) + sent
    ensures |sent| == if size >= 1 then |server.items| / size + 1 else 1
    ensures Asked(server, sent, old(Given(controls)), keys, size, |old(server.requests)|)
  {
    hide Of, Without, Set, Find, PageCount, Numbered, Proper, Prepared, Offset, Asked, Delivered, VlvServer.Answer,
      Control.Type, Controls.Get;
    var n := |server.items|;
    ghost var given, first := Given(controls), |server.requests|;
    results, error, sent := [], None, [];
    var c := SetServer(controls, Sort(keys));
    SetSort(given, keys);
    var contextId, length, lastPage := None, None, None;
    var page := 1;
    NothingYet(server, size, given, keys, first);
    while true
      invariant 1 <= page && 0 <= Offset(page, size) && error == None
      invariant if controls == null then fresh(c) else c == controls
      invariant c.server.Some? && fresh(c.server.value) && Prepared(c.server.value.items, given, keys)
      invariant page == 1 ==> length == None && lastPage == None && contextId == None
      invariant size < 1 ==> page == 1 && results == []
      invariant page > 1 ==> Offset(page - 1, size) < n && length == Some(n) && lastPage == Some(PageCount(n, size))
      invariant page > 1 ==> contextId == server.contexts(first + page - 2)
      invariant size >= 1 ==> |results| == (if Offset(page, size) < n then Offset(page, size) else n)
      invariant size >= 1 ==> Delivered(results, server.items, size)
      invariant |sent| == page - 1 && server.requests == old(server.requests) + sent
      invariant Asked(server, sent, given, keys, size, first)
      decreases n + size - Offset(page, size)
    {
      var offset := Offset(page, size);
      var view := Vlv(0, size - 1, offset + 1, contextId);
      SetView(c.server.value.items, given, keys, view);
      c := SetServer(c, view);
      ghost var request := c.server.value.items;
      hide Given;
      if length.Some? && offset > length.value {
        AtEnd(n, size, page);
        break;
      }
      var reply := Ask(server, c, size, page, contextId, given, keys, sent, first);
      Joined(old(server.requests), sent, [request]);
      sent := sent + [request];
      if size >= 1 && offset >= n {
        AtEnd(n, size, page);
      }
      if reply.Fails? {
        error := Some(reply.error);
        return;
      }
      if reply.items == [] {
        break; // no search results
      }
      results, length, lastPage := ReadPage(server.items, reply.items, c, page, size, (length, lastPage), results);
      NextPage(page, size);
      page := page + 1;
      var vlv := c.Get(VLV_RESPONSE);
      contextId, length := vlv.value.contextId, Some(vlv.value.contentCount);
    }
  }
}
