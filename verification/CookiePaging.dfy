/** Paged search with the simple paged results control, against a server that splits its results. */
module CookiePaging {
  import opened Options
  import opened ClientControls
  import VlvPaging

  /** What travels: a paged-results control carries the cookie its object holds at that moment. */
  datatype Sent = SentPage(size: int, cookie: string) | SentOther(control: Control)

  /** A message of an answer: one entry, or the end with the response controls. */
  datatype Message<T> = Message(entries: seq<T>, controls: seq<Response>)

  datatype Reply<T> = Messages(messages: seq<Message<T>>) | ProtocolError

  datatype Found<T> = Found(item: T, page: nat, entry: nat, size: int)

  function Send(control: Control): Sent
    reads if control.Paged? then {control.cell} else {}
  {
    if control.Paged? then SentPage(control.cell.size, control.cell.cookie) else SentOther(control)
  }

  function Cells(controls: seq<Control>): set<PagedControl> {
    set c <- controls | c.Paged? :: c.cell
  }

  function SendAll(controls: seq<Control>): (sent: seq<Sent>)
    reads Cells(controls)
    ensures |sent| == |controls|
  {
    if controls == [] then [] else [Send(controls[0])] + SendAll(controls[1..])
  }

  function PagesAsked(sent: seq<Sent>): (asked: seq<Sent>)
    ensures forall a <- asked :: a.SentPage?
  {
    if sent == [] then []
    else (if sent[0].SentPage? then [sent[0]] else []) + PagesAsked(sent[1..])
  }

  function Answered<T>(entries: seq<T>, controls: seq<Response>): seq<Message<T>> {
    if entries == [] then [Message([], controls)]
    else [Message([entries[0]], [])] + Answered(entries[1..], controls)
  }

  function Flatten<T>(pages: seq<seq<T>>): seq<T> {
    if pages == [] then [] else pages[0] + Flatten(pages[1..])
  }

  class PagedServer<T> {
    const pages: seq<seq<T>>
    /** The cookie that continues after a page; the last one is empty. */
    const cookies: seq<string>
    const supported: bool
    var requests: seq<seq<Sent>>

    /** Section 3 of RFC 2696: a cookie per page, and an empty one exactly at the end. */
    ghost predicate Valid() {
      && |pages| == |cookies| > 0 && cookies[|cookies| - 1] == ""
      && (forall i :: 0 <= i < |cookies| - 1 ==> cookies[i] != "")
      && (forall i, j :: 0 <= i < j < |cookies| ==> cookies[i] != cookies[j])
    }

    constructor (pages: seq<seq<T>>, cookies: seq<string>, supported: bool)
      ensures this.pages == pages && this.cookies == cookies && this.supported == supported && requests == []
    {
      this.pages, this.cookies, this.supported, requests := pages, cookies, supported, [];
    }

    /** The page a cookie asks for. */
    function Position(cookie: string): Option<nat> {
      if cookie == "" then Some(0) else After(cookie, 0)
    }

    function After(cookie: string, i: nat): Option<nat>
      decreases |cookies| - i
    {
      if i + 1 >= |cookies| then None else if cookies[i] == cookie then Some(i + 1) else After(cookie, i + 1)
    }

    function Answer(sent: seq<Sent>): Reply<T>
      requires |pages| == |cookies| > 0
    {
      var asked := PagesAsked(sent);
      if !supported then Messages(Answered(Flatten(pages), []))
      else if |asked| != 1 || Position(asked[0].cookie).None? then ProtocolError
      else
        var i := Position(asked[0].cookie).value;
        if i < |pages| then Messages(Answered(pages[i], [PagedResponse(cookies[i])])) else ProtocolError
    }

    method Search(controls: Controls) returns (reply: Reply<T>)
      requires |pages| == |cookies| > 0 && controls.server.Some?
      modifies this
      ensures requests == old(requests) + [old(SendAll(controls.server.value.items))]
      ensures reply == Answer(old(SendAll(controls.server.value.items)))
    {
      var sent := SendAll(controls.server.value.items);
      requests := requests + [sent];
      reply := Answer(sent);
    }
  }

  // ----- what the caller is to see -----

  /** The pages up to the first empty one. */
  function Delivered<T>(pages: seq<seq<T>>): (shown: seq<seq<T>>)
    ensures |shown| <= |pages|
  {
    if pages == [] || pages[0] == [] then [] else [pages[0]] + Delivered(pages[1..])
  }

  function OnPage<T>(entries: seq<T>, page: nat, from: nat, size: int): seq<Found<T>> {
    if entries == [] then [] else [Found(entries[0], page, from, size)] + OnPage(entries[1..], page, from + 1, size)
  }

  /** Pages numbered from a first number on, entries from one on each page. */
  function Numbered<T>(pages: seq<seq<T>>, page: nat, size: int): seq<Found<T>> {
    if pages == [] then [] else OnPage(pages[0], page, 1, size) + Numbered(pages[1..], page + 1, size)
  }

  predicate HasPaged(controls: seq<Control>) { exists c <- controls :: c.Paged? }

  function Plain(controls: seq<Control>): seq<Sent> {
    seq(|controls|, i requires 0 <= i < |controls| => SentOther(controls[i]))
  }

  /** A request as it travels: the caller's controls, one page control, the sort control if there is one. */
  function Wire(given: seq<Control>, keys: Option<string>, size: int, cookie: string): seq<Sent> {
    if keys.None? then Plain(given) + [SentPage(size, cookie)]
    else Plain(Without(given, SORT_REQUEST)) + [SentPage(size, cookie)] + [SentOther(Sort(keys.value))]
  }

  /** The list the loop sends each time. */
  function Prepared(given: seq<Control>, keys: Option<string>, pagination: PagedControl): seq<Control> {
    var appended := given + [Paged(pagination)];
    if keys.None? then appended else Set(appended, Sort(keys.value))
  }

  // ----- lemmas about requests -----

  lemma {:induction false} SendPlain(controls: seq<Control>)
    requires !HasPaged(controls)
    ensures SendAll(controls) == Plain(controls)
  {
    if controls != [] {
      forall c <- controls[1..] ensures c in controls { }
      assert controls[0] in controls;
      SendPlain(controls[1..]);
    }
  }

  lemma {:induction false} SendJoin(a: seq<Control>, b: seq<Control>)
    ensures SendAll(a + b) == SendAll(a) + SendAll(b)
  {
    hide Send;
    if a == [] {
      assert a + b == b;
    } else {
      SendJoin(a[1..], b);
      assert (a + b)[0] == a[0] && (a + b)[1..] == a[1..] + b;
      Joined([Send(a[0])], SendAll(a[1..]), SendAll(b));
    }
  }

  lemma {:induction false} AskedJoin(a: seq<Sent>, b: seq<Sent>)
    ensures PagesAsked(a + b) == PagesAsked(a) + PagesAsked(b)
  {
    if a == [] {
      assert a + b == b;
    } else {
      AskedJoin(a[1..], b);
      assert (a + b)[0] == a[0] && (a + b)[1..] == a[1..] + b;
      Joined(if a[0].SentPage? then [a[0]] else [], PagesAsked(a[1..]), PagesAsked(b));
    }
  }

  lemma {:induction false} AskedPlain(controls: seq<Control>)
    ensures PagesAsked(Plain(controls)) == []
  {
    if controls != [] {
      AskedPlain(controls[1..]);
      assert Plain(controls)[1..] == Plain(controls[1..]);
    }
  }

  lemma {:induction false} AskedOf(controls: seq<Control>)
    ensures |PagesAsked(SendAll(controls))| > 0 <==> HasPaged(controls)
  {
    if controls != [] {
      AskedOf(controls[1..]);
      assert controls == [controls[0]] + controls[1..];
    }
  }

  lemma {:induction false} WithoutKeeps(controls: seq<Control>)
    ensures HasPaged(Without(controls, SORT_REQUEST)) <==> HasPaged(controls)
    ensures forall c <- Without(controls, SORT_REQUEST) :: c in controls
  {
    if controls != [] {
      WithoutKeeps(controls[1..]);
      assert controls == [controls[0]] + controls[1..];
      assert SORT_REQUEST[19] != PAGED_RESULTS[19];
    }
  }

  /** What is sent when the caller's own list has no page control, and how many page controls there are when it has. */
  lemma SendPrepared(given: seq<Control>, keys: Option<string>, pagination: PagedControl)
    ensures var sent := SendAll(Prepared(given, keys, pagination));
            && (!HasPaged(given) ==> sent == Wire(given, keys, pagination.size, pagination.cookie))
            && (!HasPaged(given) ==> PagesAsked(sent) == [SentPage(pagination.size, pagination.cookie)])
            && (HasPaged(given) ==> |PagesAsked(sent)| > 1)
    ensures HasPaged(Prepared(given, keys, pagination))
  {
    hide Control.Type, Without, PagesAsked;
    var page := [Paged(pagination)];
    var head := if keys.None? then given else Without(given, SORT_REQUEST);
    var tail := if keys.None? then [] else [Sort(keys.value)];
    assert SendAll(page) == [SentPage(pagination.size, pagination.cookie)] by { assert page[1..] == []; }
    assert SendAll(tail) == Plain(tail) by { assert keys.Some? ==> tail[1..] == []; }
    WithoutKeeps(given);
    assert Prepared(given, keys, pagination) == head + page + tail by {
      WithoutJoin(given, page, SORT_REQUEST);
      One(Paged(pagination), SORT_REQUEST);
      PagedIsNotSort(pagination, keys);
    }
    assert page[0] in head + page + tail;
    SendJoin(head + page, tail);
    SendJoin(head, page);
    AskedJoin(SendAll(head + page), SendAll(tail));
    AskedJoin(SendAll(head), SendAll(page));
    AskedPlain(tail);
    AskedOf(head);
    OnePage(pagination.size, pagination.cookie);
    if !HasPaged(given) {
      SendPlain(head);
      AskedPlain(head);
    }
  }

  lemma PagedIsNotSort(pagination: PagedControl, keys: Option<string>)
    ensures Paged(pagination).Type() != SORT_REQUEST && (keys.Some? ==> Sort(keys.value).Type() == SORT_REQUEST)
  {
    assert SORT_REQUEST[19] != PAGED_RESULTS[19];
  }

  lemma OnePage(size: int, cookie: string)
    ensures PagesAsked([SentPage(size, cookie)]) == [SentPage(size, cookie)]
  {
    assert [SentPage(size, cookie)][1..] == [];
  }

  // ----- lemmas about answers -----

  lemma {:induction false} AfterFinds<T>(server: PagedServer<T>, i: nat, k: nat)
    requires server.Valid() && i <= k < |server.cookies| - 1
    ensures server.After(server.cookies[k], i) == Some(k + 1)
    decreases k - i
  {
    if i < k {
      AfterFinds(server, i + 1, k);
    }
  }

  /** The cookie to send with the k-th request. */
  function CookieFor<T>(server: PagedServer<T>, k: nat): string {
    if k == 0 || k > |server.cookies| then "" else server.cookies[k - 1]
  }

  lemma AnswerToCookie<T>(server: PagedServer<T>, sent: seq<Sent>, k: nat, size: int)
    requires server.Valid() && k < |server.pages| && server.supported
    requires PagesAsked(sent) == [SentPage(size, CookieFor(server, k))]
    ensures server.Answer(sent) == Messages(Answered(server.pages[k], [PagedResponse(server.cookies[k])]))
  {
    if k > 0 {
      AfterFinds(server, 0, k - 1);
    }
  }

  lemma {:induction false} AnsweredAt<T>(entries: seq<T>, controls: seq<Response>)
    ensures |Answered(entries, controls)| == |entries| + 1
    ensures forall i :: 0 <= i < |entries| ==> Answered(entries, controls)[i] == Message([entries[i]], [])
    ensures Answered(entries, controls)[|entries|] == Message([], controls)
  {
    if entries != [] {
      AnsweredAt(entries[1..], controls);
    }
  }

  lemma {:induction false} OnPageMore<T>(entries: seq<T>, page: nat, from: nat, size: int, k: nat)
    requires k < |entries|
    ensures OnPage(entries[..k + 1], page, from, size) ==
              OnPage(entries[..k], page, from, size) + [Found(entries[k], page, from + k, size)]
  {
    if k == 0 {
      assert entries[..1] == [entries[0]] && entries[..1][1..] == [];
    } else {
      OnPageMore(entries[1..], page, from + 1, size, k - 1);
      assert entries[..k + 1][1..] == entries[1..][..k] && entries[..k][1..] == entries[1..][..k - 1];
      Joined([Found(entries[0], page, from, size)], OnPage(entries[1..][..k - 1], page, from + 1, size),
        [Found(entries[k], page, from + k, size)]);
    }
  }

  lemma {:induction false} NumberedMore<T>(pages: seq<seq<T>>, page: nat, size: int, k: nat)
    requires k < |pages|
    ensures Numbered(pages[..k + 1], page, size) ==
              Numbered(pages[..k], page, size) + OnPage(pages[k], page + k, 1, size)
  {
    if k == 0 {
      assert pages[..1] == [pages[0]] && pages[..1][1..] == [];
    } else {
      NumberedMore(pages[1..], page + 1, size, k - 1);
      assert pages[..k + 1][1..] == pages[1..][..k] && pages[..k][1..] == pages[1..][..k - 1];
      Joined(OnPage(pages[0], page, 1, size), Numbered(pages[1..][..k - 1], page + 1, size),
        OnPage(pages[k], page + k, 1, size));
    }
  }

  lemma {:induction false} DeliveredIs<T>(pages: seq<seq<T>>, k: nat)
    requires k <= |pages| && (forall i :: 0 <= i < k ==> pages[i] != []) && (k < |pages| ==> pages[k] == [])
    ensures Delivered(pages) == pages[..k]
  {
    if k > 0 {
      DeliveredIs(pages[1..], k - 1);
      assert pages[..k] == [pages[0]] + pages[1..][..k - 1];
    }
  }

  /** What the server answers to the k-th request: page by page, all at once, or with an error. */
  lemma ReplyIs<T>(server: PagedServer<T>, given: seq<Control>, keys: Option<string>, pagination: PagedControl, k: nat)
    requires server.Valid() && k < |server.pages| && pagination.cookie == CookieFor(server, k)
    ensures server.Answer(SendAll(Prepared(given, keys, pagination))) ==
            if !server.supported then Messages(Answered(Flatten(server.pages), []))
            else if HasPaged(given) then ProtocolError
            else Messages(Answered(server.pages[k], [PagedResponse(server.cookies[k])]))
    ensures !HasPaged(given) ==>
              SendAll(Prepared(given, keys, pagination)) == Wire(given, keys, pagination.size, CookieFor(server, k))
  {
    hide Prepared, SendAll, Wire, HasPaged, PagesAsked, Answered, Flatten;
    SendPrepared(given, keys, pagination);
    if server.supported && !HasPaged(given) {
      AnswerToCookie(server, SendAll(Prepared(given, keys, pagination)), k, pagination.size);
    }
  }

  /** The k-th request carries the cookie of the answer before it. */
  ghost predicate Asked<T>(server: PagedServer<T>, sent: seq<seq<Sent>>, given: seq<Control>, keys: Option<string>,
                           size: int) {
    forall j :: 0 <= j < |sent| ==> sent[j] == Wire(given, keys, size, CookieFor(server, j))
  }

  lemma AskMore<T>(server: PagedServer<T>, sent: seq<seq<Sent>>, given: seq<Control>, keys: Option<string>, size: int,
                   request: seq<Sent>)
    requires Asked(server, sent, given, keys, size) && request == Wire(given, keys, size, CookieFor(server, |sent|))
    ensures Asked(server, sent + [request], given, keys, size)
  {
    hide Wire, CookieFor;
  }

  /** So many pages, none of them empty. */
  ghost predicate Full<T>(pages: seq<seq<T>>, k: nat) {
    k <= |pages| && forall i :: 0 <= i < k ==> pages[i] != []
  }

  lemma FullMore<T>(pages: seq<seq<T>>, k: nat)
    requires Full(pages, k) && k < |pages|
    ensures pages[k] != [] ==> Full(pages, k + 1)
    ensures pages[k] == [] ==> Delivered(pages) == pages[..k]
    ensures pages[k] != [] && k + 1 == |pages| ==> Delivered(pages) == pages[..k + 1] == pages
  {
    hide Delivered;
    if pages[k] == [] {
      DeliveredIs(pages, k);
    } else if k + 1 == |pages| {
      DeliveredIs(pages, k + 1);
      assert pages[..k + 1] == pages;
    }
  }

  /** The loop over one iterative search: every message sets the response controls, every entry is numbered. */
  method ReadPage<T>(messages: seq<Message<T>>, c: Controls, page: nat, size: int, ghost entries: seq<T>,
                     ghost closing: seq<Response>)
      returns (found: seq<Found<T>>, entry: nat)
    requires messages == Answered(entries, closing)
    modifies c`response
    ensures found == OnPage(entries, page, 1, size) && entry == |entries|
    ensures c.response == Some(closing)
  {
    hide OnPage, Answered;
    AnsweredAt(entries, closing);
    found, entry := [], 0;
    assert OnPage(entries[..0], page, 1, size) == [] by { NoEntries<T>(page, 1, size); }
    var i := 0;
    while i < |messages|
      invariant 0 <= i <= |messages| && entry == if i <= |entries| then i else |entries|
      invariant found == OnPage(entries[..entry], page, 1, size)
      invariant i == |messages| ==> c.response == Some(closing)
    {
      var message := messages[i];
      c.response := Some(message.controls);
      var k := 0;
      while k < |message.entries|
        invariant 0 <= k <= |message.entries| && entry == (if i <= |entries| then i else |entries|) + k
        invariant found == OnPage(entries[..entry], page, 1, size) && c.response == Some(message.controls)
      {
        OnPageMore(entries, page, 1, size, entry);
        entry := entry + 1;
        found := found + [Found(message.entries[k], page, entry, size)];
        k := k + 1;
      }
      i := i + 1;
    }
    assert entries[..entry] == entries;
  }

  lemma NextCookie<T>(server: PagedServer<T>, k: nat)
    requires server.Valid() && k < |server.pages|
    ensures |server.cookies| == |server.pages| && CookieFor(server, k + 1) == server.cookies[k]
    ensures server.cookies[k] == "" <==> k + 1 == |server.pages|
  {
  }

  lemma NoEntries<T>(page: nat, from: nat, size: int)
    ensures OnPage<T>([], page, from, size) == []
  {
  }

  lemma NothingYet<T>(server: PagedServer<T>, given: seq<Control>, keys: Option<string>, size: int)
    ensures Numbered(server.pages[..0], 1, size) == [] && Full(server.pages, 0) && Asked(server, [], given, keys, size)
    ensures CookieFor(server, 0) == ""
    ensures server.Valid() ==> |server.pages| == |server.cookies| > 0
    ensures Find([], PAGED_RESULTS) == None
    ensures forall cookie :: Find([PagedResponse(cookie)], PAGED_RESULTS) == Some(PagedResponse(cookie))
  {
  }

  /** The controls the loop sends: the page control at the end of the caller's own list, then perhaps a sort control. */
  method Begin(size: int, keys: Option<string>, controls: Controls?) returns (c: Controls, pagination: PagedControl)
    requires controls != null ==> controls.server.Some?
    modifies controls, ListsOf(controls)
    ensures if controls == null then fresh(c) else c == controls
    ensures fresh(pagination) && pagination.size == size && pagination.cookie == ""
    ensures c.server.Some? && c.server.value.items == Prepared(old(Given(controls)), keys, pagination)
    ensures HasPaged(c.server.value.items) && (controls != null ==> HasPaged(old(controls.server).value.items))
  {
    hide Control.Type, Without, HasPaged;
    ghost var given := Given(controls);
    pagination := new PagedControl(size, "");
    c := AppendServer(controls, Paged(pagination));
    SendPrepared(given, None, pagination);
    SendPrepared(given, keys, pagination);
    if keys.Some? {
      c := SetServer(c, Sort(keys.value));
    }
  }

  /** One request with its answer, numbered as the given page, the first one having number one. */
  method AskPage<T>(server: PagedServer<T>, c: Controls, page: nat, size: int, pagination: PagedControl,
                    ghost given: seq<Control>, ghost keys: Option<string>, ghost sent: seq<seq<Sent>>)
      returns (failed: bool, found: seq<Found<T>>, entry: nat, ghost request: seq<Sent>)
    requires server.Valid() && c.server.Some? && c.server.value.items == Prepared(given, keys, pagination)
    requires 1 <= page <= |server.pages| && pagination.size == size && pagination.cookie == CookieFor(server, page - 1)
    requires |sent| == page - 1 && (!HasPaged(given) ==> Asked(server, sent, given, keys, size))
    modifies server, c`response
    ensures server.requests == old(server.requests) + [request]
    ensures !HasPaged(given) ==> Asked(server, sent + [request], given, keys, size)
    ensures failed <==> server.supported && HasPaged(given)
    ensures var entries := if server.supported then server.pages[page - 1] else Flatten(server.pages);
            !failed ==>
              && found == OnPage(entries, page, 1, size) && entry == |entries|
              && c.Get(PAGED_RESULTS) ==
                 if server.supported && page - 1 < |server.cookies|
                 then Some(PagedResponse(server.cookies[page - 1]))
                 else None
  {
    hide Control.Type, Send, SendAll, Wire, HasPaged, OnPage, Answered, Flatten, Prepared, PagedServer.Answer,
      CookieFor, Asked;
    found, entry := [], 0;
    request := SendAll(c.server.value.items);
    ReplyIs(server, given, keys, pagination, page - 1);
    if !HasPaged(given) {
      AskMore(server, sent, given, keys, size, request);
    }
    ghost var entries := if server.supported then server.pages[page - 1] else Flatten(server.pages);
    ghost var closing := if server.supported then [PagedResponse(server.cookies[page - 1])] else [];
    var reply := server.Search(c);
    failed := reply.ProtocolError?;
    if !failed {
      found, entry := ReadPage(reply.messages, c, page, size, entries, closing);
    }
  }

  /** Connection.search_paged, run to its end. */
  method SearchPaged<T>(server: PagedServer<T>, size: int, keys: Option<string>, controls: Controls?)
      returns (results: seq<Found<T>>, failed: bool, ghost sent: seq<seq<Sent>>)
    requires server.Valid()
    requires controls != null ==> controls.server.Some?
    modifies server, controls, ListsOf(controls)
    ensures failed <==> server.supported && HasPaged(old(Given(controls)))
    ensures failed ==> results == []
    ensures !server.supported ==> results == OnPage(Flatten(server.pages), 1, 1, size)
    ensures server.supported && !failed ==> results == Numbered(Delivered(server.pages), 1, size)
    ensures server.requests == old(server.requests) + sent
    ensures var m := |Delivered(server.pages)|;
            |sent| == if !server.supported || failed then 1 else if m < |server.pages| then m + 1 else m
    ensures !HasPaged(old(Given(controls))) ==> Asked(server, sent, old(Given(controls)), keys, size)
    ensures controls != null ==>
              && controls.server.Some? && HasPaged(controls.server.value.items)
              && HasPaged(old(controls.server).value.items)
  {
    hide Control.Type, Without, HasPaged, Numbered, OnPage, Delivered, Flatten, Prepared, Given;
    hide PagedServer.Valid, CookieFor, Asked, Full, Controls.Get;
    ghost var given := Given(controls);
    results, failed, sent := [], false, [];
    var c, pagination := Begin(size, keys, controls);
    var page := 0;
    NothingYet(server, given, keys, size);
    while true
      invariant (if controls == null then fresh(c) else c == controls) && c.server.Some?
      invariant c.server.value.items == Prepared(given, keys, pagination)
      invariant controls != null ==> HasPaged(old(controls.server).value.items)
      invariant fresh(pagination) && pagination.size == size && pagination.cookie == CookieFor(server, page)
      invariant page < |server.pages| && !failed && (page > 0 ==> server.supported && !HasPaged(given))
      invariant results == Numbered(server.pages[..page], 1, size) && Full(server.pages, page)
      invariant |sent| == page && server.requests == old(server.requests) + sent
      invariant !HasPaged(given) ==> Asked(server, sent, given, keys, size)
      decreases |server.pages| - page
    {
      NextCookie(server, page);
      NumberedMore(server.pages, 1, size, page);
      FullMore(server.pages, page);
      page := page + 1;
      var found, entry;
      ghost var request;
      failed, found, entry, request := AskPage(server, c, page, size, pagination, given, keys, sent);
      Joined(old(server.requests), sent, [request]);
      sent := sent + [request];
      if failed {
        return;
      }
      results := results + found;
      if entry == 0 {
        NoEntries<T>(page, 1, size);
        break;
      }
      var control := c.Get(PAGED_RESULTS);
      if control.None? {
        break;
      }
      pagination.cookie := control.value.cookie;
      if pagination.cookie == "" {
        break;
      }
    }
  }

  // ----- complete, in order, and rightly numbered -----

  function Items<T>(found: seq<Found<T>>): seq<T> {
    if found == [] then [] else [found[0].item] + Items(found[1..])
  }

  lemma {:induction false} ItemsJoin<T>(a: seq<Found<T>>, b: seq<Found<T>>)
    ensures Items(a + b) == Items(a) + Items(b)
  {
    if a == [] {
      assert a + b == b;
    } else {
      ItemsJoin(a[1..], b);
      assert (a + b)[0] == a[0] && (a + b)[1..] == a[1..] + b;
      Joined([a[0].item], Items(a[1..]), Items(b));
    }
  }

  lemma {:induction false} OnPageItems<T>(entries: seq<T>, page: nat, from: nat, size: int)
    ensures Items(OnPage(entries, page, from, size)) == entries && |OnPage(entries, page, from, size)| == |entries|
  {
    if entries != [] {
      OnPageItems(entries[1..], page, from + 1, size);
    }
  }

  lemma {:induction false} NumberedItems<T>(pages: seq<seq<T>>, page: nat, size: int)
    ensures Items(Numbered(pages, page, size)) == Flatten(pages) && |Numbered(pages, page, size)| == |Flatten(pages)|
  {
    if pages != [] {
      NumberedItems(pages[1..], page + 1, size);
      OnPageItems(pages[0], page, 1, size);
      ItemsJoin(OnPage(pages[0], page, 1, size), Numbered(pages[1..], page + 1, size));
    }
  }

  lemma {:induction false} DeliveredPrefix<T>(pages: seq<seq<T>>)
    ensures Delivered(pages) <= pages
    ensures Flatten(pages) == Flatten(Delivered(pages)) + Flatten(pages[|Delivered(pages)|..])
  {
    if pages != [] && pages[0] != [] {
      var rest := pages[1..];
      DeliveredPrefix(rest);
      assert pages[|Delivered(pages)|..] == rest[|Delivered(rest)|..];
      assert Delivered(pages)[1..] == Delivered(rest);
      assert Delivered(pages) == [pages[0]] + rest[..|Delivered(rest)|];
      assert Flatten(Delivered(pages)) == pages[0] + Flatten(Delivered(rest));
      Joined(pages[0], Flatten(Delivered(rest)), Flatten(rest[|Delivered(rest)|..]));
    }
  }

  lemma {:induction false} FlattenEmpty<T>(pages: seq<seq<T>>)
    ensures Flatten(pages) == [] <==> forall j :: 0 <= j < |pages| ==> pages[j] == []
  {
    if pages != [] {
      FlattenEmpty(pages[1..]);
      assert forall j :: 0 < j < |pages| ==> pages[j] == pages[1..][j - 1];
    }
  }

  /** The pages shown are the ones in front of the first empty one. */
  lemma {:induction false} DeliveredStops<T>(pages: seq<seq<T>>)
    ensures var n := |Delivered(pages)|;
            && (forall i :: 0 <= i < n ==> pages[i] != [])
            && (n < |pages| ==> pages[n] == [])
  {
    if pages != [] && pages[0] != [] {
      var rest := pages[1..];
      DeliveredStops(rest);
      assert forall i :: 0 < i < |pages| ==> pages[i] == rest[i - 1];
    }
  }

  /** The caller sees the whole list, in order, exactly when every page behind an empty one is empty too. */
  lemma CompleteExactly<T>(pages: seq<seq<T>>, size: int)
    ensures Items(Numbered(Delivered(pages), 1, size)) == Flatten(pages) <==>
            forall i, j :: 0 <= i < j < |pages| && pages[i] == [] ==> pages[j] == []
  {
    hide Delivered, Flatten, Numbered, Items;
    DeliveredPrefix(pages);
    NumberedItems(Delivered(pages), 1, size);
    DeliveredStops(pages);
    var n := |Delivered(pages)|;
    var shown, hidden := Flatten(Delivered(pages)), Flatten(pages[n..]);
    assert |Flatten(pages)| == |shown| + |hidden|;
    assert hidden == [] ==> shown + hidden == shown;
    FlattenEmpty(pages[n..]);
    assert forall j :: n <= j < |pages| ==> pages[j] == pages[n..][j - n];
  }

  lemma {:induction false} OnPageAt<T>(entries: seq<T>, page: nat, from: nat, size: int, k: nat)
    requires k < |entries|
    ensures |OnPage(entries, page, from, size)| == |entries|
    ensures OnPage(entries, page, from, size)[k] == Found(entries[k], page, from + k, size)
  {
    OnPageItems(entries, page, from, size);
    if k > 0 {
      OnPageAt(entries[1..], page, from + 1, size, k - 1);
    }
  }

  /** Page p and entry e, both from 0, are behind all earlier pages and e more entries, and carry p + 1 and e + 1. */
  lemma {:induction false} NumberedAt<T>(pages: seq<seq<T>>, page: nat, size: int, p: nat, e: nat)
    requires p < |pages| && e < |pages[p]|
    ensures var k := |Flatten(pages[..p])| + e;
            && k < |Numbered(pages, page, size)|
            && Numbered(pages, page, size)[k] == Found(pages[p][e], page + p, e + 1, size)
  {
    OnPageItems(pages[0], page, 1, size);
    if p == 0 {
      OnPageAt(pages[0], page, 1, size, e);
      assert pages[..0] == [];
    } else {
      NumberedAt(pages[1..], page + 1, size, p - 1, e);
      assert pages[..p][0] == pages[0] && pages[..p][1..] == pages[1..][..p - 1];
    }
  }

  lemma {:induction false} EvenLength<T>(pages: seq<seq<T>>, size: nat, p: nat)
    requires p <= |pages| && forall i :: 0 <= i < p ==> |pages[i]| == size
    ensures |Flatten(pages[..p])| == p * size
  {
    if p > 0 {
      EvenLength(pages[1..], size, p - 1);
      assert pages[..p][0] == pages[0] && pages[..p][1..] == pages[1..][..p - 1];
      assert p * size == (p - 1) * size + size;
    } else {
      assert pages[..p] == [];
    }
  }

  /** When every page but the last has the size asked for, position, page and entry are as with the list view. */
  lemma EvenPages<T>(pages: seq<seq<T>>, size: nat, p: nat, e: nat)
    requires size >= 1 && p < |pages| && e < |pages[p]| && |pages[p]| <= size
    requires forall i :: 0 <= i < p ==> |pages[i]| == size
    ensures var k := p * size + e;
            && 0 <= k < |Numbered(pages, 1, size)|
            && Numbered(pages, 1, size)[k] == Found(pages[p][e], 1 + k / size, 1 + k % size, size)
  {
    hide Numbered, Flatten;
    EvenLength(pages, size, p);
    NumberedAt(pages, 1, size, p, e);
    VlvPaging.Quotient(p * size + e, size, p, e);
  }
}
