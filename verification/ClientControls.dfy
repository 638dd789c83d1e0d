/** The controls a client sends and gets back: one object, shared by the loop and its caller. */
module ClientControls {
  import opened Options

  const SORT_REQUEST := "1.2.840.113556.1.4.473"
  const VLV_REQUEST := "2.16.840.1.113730.3.4.9"
  const VLV_RESPONSE := "2.16.840.1.113730.3.4.10"
  const PAGED_RESULTS := "1.2.840.113556.1.4.319"

  /** The paged-results control is an object whose cookie the client overwrites between requests. */
  class PagedControl {
    const size: int
    var cookie: string

    constructor (size: int, cookie: string)
      ensures this.size == size && this.cookie == cookie
    {
      this.size, this.cookie := size, cookie;
    }
  }

  datatype Control =
    | Sort(keys: string)
    | Vlv(beforeCount: int, afterCount: int, offset: int, contextId: Option<string>)
    | Paged(cell: PagedControl)
    | Other(oid: string, value: string)
  {
    function Type(): string {
      match this
      case Sort(_) => SORT_REQUEST
      case Vlv(_, _, _, _) => VLV_REQUEST
      case Paged(_) => PAGED_RESULTS
      case Other(oid, _) => oid
    }
  }

  datatype Response =
    | VlvResponse(contentCount: nat, contextId: Option<string>)
    | PagedResponse(cookie: string)
    | OtherResponse(oid: string)
  {
    function Type(): string {
      match this
      case VlvResponse(_, _) => VLV_RESPONSE
      case PagedResponse(_) => PAGED_RESULTS
      case OtherResponse(oid) => oid
    }
  }

  /** The controls of one type, and all the others. */
  function Of(controls: seq<Control>, oid: string): seq<Control> {
    if controls == [] then []
    else (if controls[0].Type() == oid then [controls[0]] else []) + Of(controls[1..], oid)
  }

  function Without(controls: seq<Control>, oid: string): seq<Control> {
    if controls == [] then []
    else (if controls[0].Type() == oid then [] else [controls[0]]) + Without(controls[1..], oid)
  }

  function Find(responses: seq<Response>, oid: string): Option<Response> {
    if responses == [] then None
    else if responses[0].Type() == oid then Some(responses[0])
    else Find(responses[1..], oid)
  }

  /** The response found is of the type, and none before it is. */
  lemma {:induction false} FindFirst(responses: seq<Response>, oid: string)
    ensures Find(responses, oid).None? <==> forall r <- responses :: r.Type() != oid
    ensures Find(responses, oid).Some? ==>
              exists i :: 0 <= i < |responses| && responses[i] == Find(responses, oid).value
                && responses[i].Type() == oid
                          && forall j :: 0 <= j < i ==> responses[j].Type() != oid
  {
    hide Response.Type;
    if responses != [] && responses[0].Type() != oid {
      FindFirst(responses[1..], oid);
      assert responses == [responses[0]] + responses[1..];
      if Find(responses, oid).Some? {
        var i :| 0 <= i < |responses[1..]| && responses[1..][i] == Find(responses, oid).value
          && responses[1..][i].Type() == oid
                 && forall j :: 0 <= j < i ==> responses[1..][j].Type() != oid;
        assert responses[i + 1] == responses[1..][i];
        forall j | 0 <= j < i + 1 ensures responses[j].Type() != oid {
          assert j > 0 ==> responses[j] == responses[1..][j - 1];
        }
      }
    }
  }

  /** What set_server leaves in the list. */
  function Set(controls: seq<Control>, control: Control): seq<Control> {
    Without(controls, control.Type()) + [control]
  }

  /** A list object: whoever holds it sees what is appended to it. */
  class ControlList {
    var items: seq<Control>

    constructor (items: seq<Control>)
      ensures this.items == items
    {
      this.items := items;
    }
  }

  class Controls {
    var server: Option<ControlList>
    var response: Option<seq<Response>>

    constructor (server: Option<ControlList>)
      ensures this.server == server && response == None
    {
      this.server, response := server, None;
    }

    /** The list objects of the server controls. */
    ghost function Lists(): set<ControlList>
      reads this
    {
      if server.Some? then {server.value} else {}
    }

    /** The first response control of the type. */
    function Get(oid: string): Option<Response>
      reads this
    {
      if response.None? then None else Find(response.value, oid)
    }
  }

  ghost function ListsOf(controls: Controls?): set<ControlList>
    reads controls
  {
    if controls == null then {} else controls.Lists()
  }

  /** The list a loop starts from. */
  ghost function Given(controls: Controls?): seq<Control>
    requires controls != null ==> controls.server.Some?
    reads controls, ListsOf(controls)
  {
    if controls == null then [] else controls.server.value.items
  }

  /** Controls.append_server extends the list object in place. The source asserts that a given object has one. */
  method AppendServer(controls: Controls?, control: Control) returns (c: Controls)
    requires controls != null ==> controls.server.Some?
    modifies ListsOf(controls)
    ensures if controls == null then fresh(c) && c.response == None else c == controls
    ensures c.server.Some? && if controls == null then fresh(c.server.value) else c.server == old(controls.server)
    ensures c.server.value.items == old(Given(controls)) + [control]
  {
    if controls == null {
      var list := new ControlList([]);
      c := new Controls(Some(list));
    } else {
      c := controls;
    }
    c.server.value.items := c.server.value.items + [control];
  }

  /** Controls.set_server puts a new list object in place of the old one, which stays as it is. */
  method SetServer(controls: Controls?, control: Control) returns (c: Controls)
    requires controls != null ==> controls.server.Some?
    modifies controls
    ensures if controls == null then fresh(c) && c.response == None else c == controls && c.response == old(c.response)
    ensures c.server.Some? && fresh(c.server.value) && c.server.value.items == Set(old(Given(controls)), control)
  {
    if controls == null {
      var empty := new ControlList([]);
      c := new Controls(Some(empty));
    } else {
      c := controls;
    }
    var list := new ControlList(Set(c.server.value.items, control));
    c.server := Some(list);
  }

  // ----- one control of its type, and the others as they were -----

  lemma {:induction false} OfJoin(a: seq<Control>, b: seq<Control>, oid: string)
    ensures Of(a + b, oid) == Of(a, oid) + Of(b, oid)
  {
    hide Control.Type;
    if a == [] {
      assert a + b == b;
    } else {
      OfJoin(a[1..], b, oid);
      assert (a + b)[0] == a[0] && (a + b)[1..] == a[1..] + b;
      Joined(if a[0].Type() == oid then [a[0]] else [], Of(a[1..], oid), Of(b, oid));
    }
  }

  lemma {:induction false} WithoutJoin(a: seq<Control>, b: seq<Control>, oid: string)
    ensures Without(a + b, oid) == Without(a, oid) + Without(b, oid)
  {
    hide Control.Type;
    if a == [] {
      assert a + b == b;
    } else {
      WithoutJoin(a[1..], b, oid);
      assert (a + b)[0] == a[0] && (a + b)[1..] == a[1..] + b;
      Joined(if a[0].Type() == oid then [] else [a[0]], Without(a[1..], oid), Without(b, oid));
    }
  }

  lemma {:induction false} WithoutOf(controls: seq<Control>, oid: string, kept: string)
    ensures Of(Without(controls, oid), oid) == []
    ensures kept != oid ==> Of(Without(controls, oid), kept) == Of(controls, kept)
  {
    hide Control.Type;
    if controls != [] {
      WithoutOf(controls[1..], oid, kept);
      var first := if controls[0].Type() == oid then [] else [controls[0]];
      OfJoin(first, Without(controls[1..], oid), oid);
      OfJoin(first, Without(controls[1..], oid), kept);
    }
  }

  lemma One(control: Control, oid: string)
    ensures Of([control], oid) == if control.Type() == oid then [control] else []
    ensures Without([control], oid) == if control.Type() == oid then [] else [control]
  {
    assert [control][1..] == [];
  }

  lemma {:induction false} WithoutTwice(controls: seq<Control>, a: string, b: string)
    ensures Without(Without(controls, a), b) == Without(Without(controls, b), a)
    ensures Without(Without(controls, a), a) == Without(controls, a)
  {
    hide Control.Type;
    if controls != [] {
      WithoutTwice(controls[1..], a, b);
      One(controls[0], a);
      One(controls[0], b);
      WithoutJoin(Without([controls[0]], a), Without(controls[1..], a), b);
      WithoutJoin(Without([controls[0]], b), Without(controls[1..], b), a);
      WithoutJoin(Without([controls[0]], a), Without(controls[1..], a), a);
    }
  }

  /** After set_server the control is the only one of its type in the list; the others are as before, in order. */
  lemma SetIsOne(controls: seq<Control>, control: Control, kept: string)
    ensures Of(Set(controls, control), control.Type()) == [control]
    ensures kept != control.Type() ==> Of(Set(controls, control), kept) == Of(controls, kept)
    ensures Without(Set(controls, control), control.Type()) == Without(controls, control.Type())
  {
    hide Control.Type, Of, Without;
    var others := Without(controls, control.Type());
    One(control, control.Type());
    One(control, kept);
    WithoutOf(controls, control.Type(), kept);
    WithoutTwice(controls, control.Type(), control.Type());
    OfJoin(others, [control], control.Type());
    OfJoin(others, [control], kept);
    WithoutJoin(others, [control], control.Type());
  }
}
