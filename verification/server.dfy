/** The window-management state of mywm.c (`struct mywm_server`) and the
    event handlers that change it: mapping and unmapping a client surface,
    focusing a client, and adding and destroying an output. Each handler is a
    pure function from the state before the event to the state after it. */
module WindowManager {
  import opened Lists
  import opened Geometry
  import Layout

  /** Identity of a client (one `struct mywm_client`). */
  type ClientId = nat

  /** Identity of an output (one `struct mywm_output`). */
  type OutputId = nat

  /** The mode size of an output: `wlr_output->width` and `->height` once
      `new_output` has committed the preferred mode. */
  datatype Mode = Mode(width: nat, height: nat)

  datatype Server = Server(
    clients: seq<ClientId>,        // `server->clients`, head first
    outputs: seq<OutputId>,        // `server->outputs`, head first
    modes: map<OutputId, Mode>,    // mode size of each registered output
    geometry: map<ClientId, Rect>, // last size and position given to each client
    activated: set<ClientId>)      // clients whose toplevel was set activated

  /** A list link is in a list once, and the registered outputs are exactly
      those with a known mode. */
  ghost predicate Valid(s: Server)
  {
    && NoDup(s.clients)
    && NoDup(s.outputs)
    && (forall o :: o in s.outputs <==> o in s.modes)
  }

  /** The state before any event: every list empty. */
  function Init(): (s: Server)
    ensures Valid(s) && s.clients == [] && s.outputs == []
  {
    Server([], [], map[], map[], {})
  }

  /** The output `tile` lays clients out on: `outputs->prev`, the tail of the
      output list. */
  function ReferenceOutput(s: Server): (o: OutputId)
    requires s.outputs != []
  {
    s.outputs[|s.outputs| - 1]
  }

  /** `tile` reads the tail of the output list, so it needs one to exist. */
  predicate CanTile(s: Server)
  {
    s.outputs != [] && ReferenceOutput(s) in s.modes
  }

  /** Hands `rs[i]` to client `cs[i]`, in list order, as the loop of `tile`
      does with its `set_size` and `set_position` calls. */
  function Assign(g: map<ClientId, Rect>, cs: seq<ClientId>, rs: seq<Rect>): (g': map<ClientId, Rect>)
    requires |cs| == |rs|
    decreases |cs|
  {
    if cs == [] then g else Assign(g[cs[0] := rs[0]], cs[1..], rs[1..])
  }

  /** With distinct clients, each listed client ends up with its own
      rectangle and every other client keeps whatever it had. */
  lemma {:induction false} AssignPlaces(g: map<ClientId, Rect>, cs: seq<ClientId>, rs: seq<Rect>)
    requires |cs| == |rs| && NoDup(cs)
    ensures forall i :: 0 <= i < |cs| ==> cs[i] in Assign(g, cs, rs) && Assign(g, cs, rs)[cs[i]] == rs[i]
    ensures forall c :: c !in cs ==> (c in Assign(g, cs, rs) <==> c in g)
    ensures forall c :: c !in cs && c in g ==> Assign(g, cs, rs)[c] == g[c]
    decreases |cs|
  {
    if cs != [] {
      var tail := cs[1..];
      assert NoDup(tail) by {
        forall i, j | 0 <= i < j < |tail| ensures tail[i] != tail[j] {
          assert tail[i] == cs[i + 1] && tail[j] == cs[j + 1];
        }
      }
      assert cs[0] !in tail by {
        forall j | 0 <= j < |tail| ensures tail[j] != cs[0] {
          assert tail[j] == cs[j + 1];
        }
      }
      AssignPlaces(g[cs[0] := rs[0]], tail, rs[1..]);
      var g' := Assign(g, cs, rs);
      forall i | 1 <= i < |cs|
        ensures cs[i] in g' && g'[cs[i]] == rs[i]
      {
        assert cs[i] == tail[i - 1] && rs[i] == rs[1..][i - 1];
      }
    }
  }

  /** `tile`: lays the clients out on the reference output's mode size.
      Only the geometry changes. */
  function Retile(s: Server): (r: Server)
    requires CanTile(s)
    ensures r.clients == s.clients && r.outputs == s.outputs && r.modes == s.modes
    ensures r.activated == s.activated
  {
    var m := s.modes[ReferenceOutput(s)];
    s.(geometry := Assign(s.geometry, s.clients, Layout.Tile(m.width, m.height, |s.clients|)))
  }

  /** After `tile`, the i-th client of the list holds the i-th rectangle of
      the layout for the reference output's mode, and clients not in the list
      keep their old geometry (an empty list therefore changes nothing). */
  lemma RetilePlaces(s: Server)
    requires CanTile(s) && NoDup(s.clients)
    ensures var m := s.modes[ReferenceOutput(s)];
      var t := Layout.Tile(m.width, m.height, |s.clients|);
      var g := Retile(s).geometry;
      && (forall i :: 0 <= i < |s.clients| ==> s.clients[i] in g && g[s.clients[i]] == t[i])
      && (forall c :: c !in s.clients ==> (c in g <==> c in s.geometry))
      && (forall c :: c !in s.clients && c in s.geometry ==> g[c] == s.geometry[c])
  {
    var m := s.modes[ReferenceOutput(s)];
    AssignPlaces(s.geometry, s.clients, Layout.Tile(m.width, m.height, |s.clients|));
  }

  /** Laying out twice in a row gives the same geometry as laying out once. */
  lemma RetileIdempotent(s: Server)
    requires CanTile(s) && NoDup(s.clients)
    ensures Retile(Retile(s)) == Retile(s)
  {
    var r := Retile(s);
    var rr := Retile(r);
    RetilePlaces(s);
    RetilePlaces(r);
    assert rr.geometry.Keys == r.geometry.Keys;
    assert rr.geometry == r.geometry by {
      forall c | c in r.geometry ensures rr.geometry[c] == r.geometry[c] {
        if c in s.clients {
          var i := IndexOf(s.clients, c);
          assert s.clients[i] == c;
        }
      }
    }
  }

  /** `focus_client`, list part: unlinks the client and reinserts it at the
      head of the list, and sets its toplevel activated. No other client is
      deactivated and no layout is recomputed. */
  function Focus(s: Server, c: ClientId): (r: Server)
    requires c in s.clients
  {
    s.(clients := [c] + Without(s.clients, c), activated := s.activated + {c})
  }

  /** Focusing moves the client to the head; every other client keeps its
      relative order; the geometry, the outputs and every other client's
      activation are untouched. */
  lemma FocusMovesToHead(s: Server, c: ClientId)
    requires NoDup(s.clients) && c in s.clients
    ensures var k := IndexOf(s.clients, c);
      var r := Focus(s, c);
      && r.clients == [c] + s.clients[..k] + s.clients[k + 1..]
      && NoDup(r.clients)
      && r.geometry == s.geometry && r.outputs == s.outputs && r.modes == s.modes
      && r.activated == s.activated + {c}
  {
    UnlinkListed(s.clients, c);
    ConsNoDup(c, Without(s.clients, c));
  }

  /** Focusing the client already at the head leaves the list as it is. */
  lemma FocusHeadKeepsOrder(s: Server)
    requires NoDup(s.clients) && s.clients != []
    ensures Focus(s, s.clients[0]).clients == s.clients
  {
    WithoutSplice(s.clients, 0);
  }

  /** `surface_handle_map`: inserts the client at the head of the list, lays
      the list out, then focuses the client. */
  function MapClient(s: Server, c: ClientId): (r: Server)
    requires c !in s.clients && CanTile(s)
  {
    var inserted := s.(clients := [c] + s.clients);
    Focus(Retile(inserted), c)
  }

  /** Mapping puts the new client at the head with everyone else behind it in
      their old order; the layout was computed for that list, so the new
      client gets the master rectangle and the i-th old client gets stack
      slot i+1; clients outside the list keep their geometry; the new client
      is activated and no other activation changes. */
  lemma MapClientSpec(s: Server, c: ClientId)
    requires Valid(s) && c !in s.clients && s.outputs != []
    ensures var r := MapClient(s, c);
      var m := s.modes[ReferenceOutput(s)];
      var t := Layout.Tile(m.width, m.height, |s.clients| + 1);
      && Valid(r)
      && r.clients == [c] + s.clients
      && c in r.geometry && r.geometry[c] == t[0]
      && (forall i :: 0 <= i < |s.clients| ==> s.clients[i] in r.geometry && r.geometry[s.clients[i]] == t[i + 1])
      && (forall d :: d !in r.clients ==> (d in r.geometry <==> d in s.geometry))
      && (forall d :: d !in r.clients && d in s.geometry ==> r.geometry[d] == s.geometry[d])
      && r.activated == s.activated + {c}
      && r.outputs == s.outputs && r.modes == s.modes
  {
    var inserted := s.(clients := [c] + s.clients);
    ConsNoDup(c, s.clients);
    assert ReferenceOutput(inserted) == ReferenceOutput(s);
    RetilePlaces(inserted);
    var tiled := Retile(inserted);
    FocusHeadKeepsOrder(tiled);
    var r := MapClient(s, c);
    assert r.clients == inserted.clients && r.geometry == tiled.geometry;
    var m := s.modes[ReferenceOutput(s)];
    var t := Layout.Tile(m.width, m.height, |s.clients| + 1);
    forall i | 0 <= i < |s.clients|
      ensures s.clients[i] in tiled.geometry && tiled.geometry[s.clients[i]] == t[i + 1]
    {
      assert inserted.clients[i + 1] == s.clients[i];
    }
  }

  /** The newly mapped client is the master: it is at the head of the list and
      fills the output when alone, or holds the left 5/8 at full height when
      other clients are mapped. */
  lemma MapClientIsMaster(s: Server, c: ClientId)
    requires Valid(s) && c !in s.clients && s.outputs != []
    ensures var r := MapClient(s, c);
      var m := s.modes[ReferenceOutput(s)];
      && r.clients[0] == c
      && c in r.geometry
      && r.geometry[c] == (if s.clients == [] then Rect(0, 0, m.width, m.height)
                           else Rect(0, 0, m.width * 5 / 8, m.height))
  {
    MapClientSpec(s, c);
    var m := s.modes[ReferenceOutput(s)];
    if s.clients != [] {
      Layout.TileMaster(m.width, m.height, |s.clients| + 1);
    }
  }

  /** `surface_handle_unmap`: unlinks the client and lays the rest out. */
  function UnmapClient(s: Server, c: ClientId): (r: Server)
    requires c in s.clients && CanTile(s)
  {
    Retile(s.(clients := Without(s.clients, c)))
  }

  /** Unmapping removes exactly that client, the others keep their order and
      are laid out again by rank; the unmapped client keeps its last
      geometry; no client is focused or activated in its place. */
  lemma UnmapClientSpec(s: Server, c: ClientId)
    requires Valid(s) && c in s.clients && s.outputs != []
    ensures var k := IndexOf(s.clients, c);
      var r := UnmapClient(s, c);
      var m := s.modes[ReferenceOutput(s)];
      var t := Layout.Tile(m.width, m.height, |s.clients| - 1);
      && Valid(r)
      && r.clients == s.clients[..k] + s.clients[k + 1..]
      && c !in r.clients
      && (forall i :: 0 <= i < |r.clients| ==> r.clients[i] in r.geometry && r.geometry[r.clients[i]] == t[i])
      && (forall d :: d !in r.clients ==> (d in r.geometry <==> d in s.geometry))
      && (forall d :: d !in r.clients && d in s.geometry ==> r.geometry[d] == s.geometry[d])
      && r.activated == s.activated
      && r.outputs == s.outputs && r.modes == s.modes
  {
    UnlinkListed(s.clients, c);
    var removed := s.(clients := Without(s.clients, c));
    assert ReferenceOutput(removed) == ReferenceOutput(s);
    RetilePlaces(removed);
  }

  /** `new_output`: links the output in at the head of the output list. The
      clients are not laid out again. */
  function AddOutput(s: Server, o: OutputId, m: Mode): (r: Server)
    requires o !in s.outputs
  {
    s.(outputs := [o] + s.outputs, modes := s.modes[o := m])
  }

  /** A new output goes to the head; it becomes the reference output only if
      it is the only one, otherwise the reference output is unchanged; the
      clients, their geometry and activation are untouched. */
  lemma AddOutputSpec(s: Server, o: OutputId, m: Mode)
    requires Valid(s) && o !in s.outputs
    ensures var r := AddOutput(s, o, m);
      && Valid(r)
      && r.outputs == [o] + s.outputs
      && ReferenceOutput(r) == (if s.outputs == [] then o else ReferenceOutput(s))
      && r.modes[ReferenceOutput(r)] == (if s.outputs == [] then m else s.modes[ReferenceOutput(s)])
      && r.modes == s.modes[o := m]
      && r.clients == s.clients && r.geometry == s.geometry && r.activated == s.activated
  {
    ConsNoDup(o, s.outputs);
  }

  /** `output_destroy`: unlinks the output from the output list. The clients
      are not laid out again. */
  function RemoveOutput(s: Server, o: OutputId): (r: Server)
    requires o in s.outputs
  {
    s.(outputs := Without(s.outputs, o), modes := s.modes - {o})
  }

  /** Destroying an output removes only that output and the others keep
      their order; the clients, their geometry and activation are
      untouched. */
  lemma RemoveOutputSpec(s: Server, o: OutputId)
    requires Valid(s) && o in s.outputs
    ensures var k := IndexOf(s.outputs, o);
      var r := RemoveOutput(s, o);
      && Valid(r)
      && r.outputs == s.outputs[..k] + s.outputs[k + 1..]
      && r.modes == s.modes - {o}
      && r.clients == s.clients && r.geometry == s.geometry && r.activated == s.activated
  {
    UnlinkListed(s.outputs, o);
    WithoutMembers(s.outputs, o);
  }

  /** The reference output changes only when it is the one destroyed, and
      then the next-oldest output takes its place. */
  lemma RemoveOutputReference(s: Server, o: OutputId)
    requires NoDup(s.outputs) && o in s.outputs && |s.outputs| > 1
    ensures var r := RemoveOutput(s, o);
      && r.outputs != []
      && (o != ReferenceOutput(s) ==> ReferenceOutput(r) == ReferenceOutput(s))
      && (o == ReferenceOutput(s) ==> ReferenceOutput(r) == s.outputs[|s.outputs| - 2])
  {
    UnlinkListed(s.outputs, o);
    var k := IndexOf(s.outputs, o);
    var n := |s.outputs|;
    var r := RemoveOutput(s, o);
    if k != n - 1 {
      assert r.outputs[|r.outputs| - 1] == s.outputs[n - 1];
    } else {
      assert r.outputs[|r.outputs| - 1] == s.outputs[n - 2];
    }
  }

  /** An output lifecycle event from the backend. */
  datatype OutputEvent = NewOutput(id: OutputId, mode: Mode) | OutputDestroyed(id: OutputId)

  /** Every event of `evs` can be delivered in turn to an output list `os`:
      a new output is not yet listed and a destroyed one is. */
  predicate Admissible(os: seq<OutputId>, evs: seq<OutputEvent>)
    decreases |evs|
  {
    evs == [] ||
    match evs[0]
    case NewOutput(o, _) => o !in os && Admissible([o] + os, evs[1..])
    case OutputDestroyed(o) => o in os && Admissible(Without(os, o), evs[1..])
  }

  /** Delivers the events of `evs` in order. */
  function Replay(s: Server, evs: seq<OutputEvent>): (r: Server)
    requires Admissible(s.outputs, evs)
    decreases |evs|
  {
    if evs == [] then s
    else match evs[0]
      case NewOutput(o, m) => Replay(AddOutput(s, o, m), evs[1..])
      case OutputDestroyed(o) => Replay(RemoveOutput(s, o), evs[1..])
  }

  /** The outputs of `order` and those `evs` adds, oldest first, without
      those `evs` destroys. */
  function StillPresent(order: seq<OutputId>, evs: seq<OutputEvent>): (r: seq<OutputId>)
    decreases |evs|
  {
    if evs == [] then order
    else match evs[0]
      case NewOutput(o, _) => StillPresent(order + [o], evs[1..])
      case OutputDestroyed(o) => StillPresent(Without(order, o), evs[1..])
  }

  /** The output list is always the surviving outputs, newest first. */
  lemma {:induction false} ReplayOutputs(s: Server, order: seq<OutputId>, evs: seq<OutputEvent>)
    requires Admissible(s.outputs, evs) && s.outputs == Reverse(order)
    ensures Replay(s, evs).outputs == Reverse(StillPresent(order, evs))
    decreases |evs|
  {
    if evs != [] {
      match evs[0]
      case NewOutput(o, m) =>
        ReverseAppend(order, [o]);
        ReplayOutputs(AddOutput(s, o, m), order + [o], evs[1..]);
      case OutputDestroyed(o) =>
        WithoutReverse(order, o);
        ReplayOutputs(RemoveOutput(s, o), Without(order, o), evs[1..]);
    }
  }

  /** Starting from no outputs, the output `tile` lays clients out on is the
      earliest-added output that has not been destroyed. */
  lemma ReferenceIsEarliest(evs: seq<OutputEvent>)
    requires Admissible([], evs)
    ensures var r := Replay(Init(), evs);
      r.outputs != [] ==> StillPresent([], evs) != [] && ReferenceOutput(r) == StillPresent([], evs)[0]
  {
    ReplayOutputs(Init(), [], evs);
  }
}
