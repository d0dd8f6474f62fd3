/** Shape collection of internal/codegen/emit/emit.go: a depth-first walk over a
    possibly cyclic Smithy model, with a seen set and a post-order list. */
module SmithyCollect {
  import opened Options
  import opened GoStrings

  /** The shape types collectShape tells apart; Simple covers the scalar, blob,
      timestamp, big number and document types. */
  datatype Kind =
    | Structure | Union | ListShape | SetShape | MapShape | Enum | IntEnum
    | Simple(goType: string) | Service | Resource | OperationShape | OtherKind(text: string)

  datatype Shape = Shape(
    kind: Kind,
    members: map<string, string>,
    member: Option<string>,
    key: Option<string>,
    value: Option<string>,
    input: Option<string>,
    output: Option<string>,
    errors: seq<string>)

  type Model = map<string, Shape>

  const PRIMITIVE_PREFIX := "smithy.api#"

  predicate IsPrimitive(id: string) {
    PRIMITIVE_PREFIX <= id
  }

  lemma PrimitiveIds(id: string)
    ensures IsPrimitive(id) <==> exists name :: id == "smithy.api#" + name
  {
    if IsPrimitive(id) {
      assert id == "smithy.api#" + id[|PRIMITIVE_PREFIX|..];
    }
  }

  predicate Emitted(k: Kind) {
    k.Structure? || k.Union? || k.ListShape? || k.SetShape? || k.MapShape? || k.Enum? || k.IntEnum?
  }

  predicate Supported(k: Kind) {
    Emitted(k) || k.Simple? || k.Service? || k.Resource?
  }

  // ----- the reference graph

  /** Which shapes a shape's own fields refer to. */
  predicate Mentions(s: Shape, v: string) {
    match s.kind
    case Structure => v in s.members.Values
    case Union => v in s.members.Values
    case ListShape => s.member == Some(v)
    case SetShape => s.member == Some(v)
    case MapShape => s.key == Some(v) || s.value == Some(v)
    case _ => false
  }

  /** The kinds that hold types: structures and unions their members', lists and
      sets their member's, maps their key's and value's; no other kind refers to any. */
  lemma MentionsMeans(s: Shape, v: string)
    ensures Mentions(s, v) <==>
      || (s.kind in {Structure, Union} && exists name :: name in s.members && s.members[name] == v)
      || (s.kind in {ListShape, SetShape} && s.member == Some(v))
      || (s.kind == MapShape && Some(v) in {s.key, s.value})
    ensures Mentions(s, v) ==> Emitted(s.kind)
    ensures Supported(s.kind) <==> !s.kind.OperationShape? && !s.kind.OtherKind?
    ensures Emitted(s.kind) <==> Supported(s.kind) && !s.kind.Simple? && s.kind !in {Service, Resource}
  {
  }

  /** Primitive IDs refer to nothing, whatever the model holds under them. */
  predicate Edge(m: Model, u: string, v: string) {
    !IsPrimitive(u) && u in m && Mentions(m[u], v)
  }

  ghost predicate Path(m: Model, u: string, v: string, n: nat)
    decreases n
  {
    if n == 0 then u == v else exists w :: Edge(m, u, w) && Path(m, w, v, n - 1)
  }

  ghost predicate Reaches(m: Model, u: string, v: string) {
    exists n: nat :: Path(m, u, v, n)
  }

  lemma ReachesSelf(m: Model, u: string)
    ensures Reaches(m, u, u)
  {
    assert Path(m, u, u, 0);
  }

  lemma ReachesFirst(m: Model, u: string, w: string, v: string)
    requires Edge(m, u, w) && Reaches(m, w, v)
    ensures Reaches(m, u, v)
  {
    var n: nat :| Path(m, w, v, n);
    assert Path(m, u, v, n + 1);
  }

  lemma {:induction false} PathThenEdge(m: Model, u: string, w: string, v: string, n: nat)
    requires Path(m, u, w, n) && Edge(m, w, v)
    ensures Path(m, u, v, n + 1)
    decreases n
  {
    if n == 0 {
      assert Path(m, v, v, 0);
    } else {
      var x :| Edge(m, u, x) && Path(m, x, w, n - 1);
      PathThenEdge(m, x, w, v, n - 1);
    }
  }

  lemma ReachesLast(m: Model, u: string, w: string, v: string)
    requires Reaches(m, u, w) && Edge(m, w, v)
    ensures Reaches(m, u, v)
  {
    var n: nat :| Path(m, u, w, n);
    PathThenEdge(m, u, w, v, n);
  }

  /** A set closed under references contains all that is reached from it. */
  lemma {:induction false} ClosedContains(m: Model, seen: set<string>, u: string, v: string, n: nat)
    requires Path(m, u, v, n) && !IsPrimitive(v) && u in seen
    requires forall a, b :: a in seen && Edge(m, a, b) && !IsPrimitive(b) ==> b in seen
    ensures v in seen
    decreases n
  {
    if n > 0 {
      var w :| Edge(m, u, w) && Path(m, w, v, n - 1);
      NoWayOut(m, w, v, n - 1);
      if !IsPrimitive(w) {
        ClosedContains(m, seen, w, v, n - 1);
      }
    }
  }

  lemma NoWayOut(m: Model, u: string, v: string, n: nat)
    requires Path(m, u, v, n)
    ensures IsPrimitive(u) ==> u == v
  {
  }

  // ----- the walk's invariant

  /** `open` holds the shapes whose walk has begun and not ended. */
  ghost predicate Walk(m: Model, seen: set<string>, order: seq<string>, open: set<string>) {
    && open <= seen <= m.Keys
    && (forall x :: x in seen ==> !IsPrimitive(x) && Supported(m[x].kind))
    && NoRepeats(order)
    && (forall x :: x in order <==> x in seen && x !in open && Emitted(m[x].kind))
    && (forall u, v :: u in seen && u !in open && Edge(m, u, v) && !IsPrimitive(v) ==> v in seen)
    && Ordered(m, seen, order)
  }

  /** Every emitted shape an emitted shape refers to comes before it, unless it
      can itself get back to it. */
  ghost predicate Ordered(m: Model, seen: set<string>, order: seq<string>)
    requires seen <= m.Keys
  {
    forall i, v :: 0 <= i < |order| && Edge(m, order[i], v) && v in seen && Emitted(m[v].kind) ==>
      v in order[..i] || Reaches(m, v, order[i])
  }

  /** Something that cannot be collected: an unknown shape or an unsupported type. */
  predicate Bad(m: Model, x: string) {
    !IsPrimitive(x) && (x !in m || !Supported(m[x].kind))
  }

  ghost predicate ReachesBad(m: Model, id: string) {
    exists x :: Reaches(m, id, x) && Bad(m, x)
  }

  /** What one successful call leaves behind. */
  ghost predicate Collected(m: Model, id: string, seen0: set<string>, order0: seq<string>,
                            seen: set<string>, order: seq<string>)
  {
    && seen0 <= seen
    && order0 <= order
    && (IsPrimitive(id) || id in seen)
    && forall x :: x in seen && x !in seen0 ==> Reaches(m, id, x)
  }

  lemma BeginWalk(m: Model, seen: set<string>, order: seq<string>, open: set<string>, id: string)
    requires Walk(m, seen, order, open)
    requires id in m && id !in seen && !IsPrimitive(id) && Supported(m[id].kind)
    requires forall o :: o in open ==> Reaches(m, o, id)
    ensures Walk(m, seen + {id}, order, open + {id})
  {
    hide Reaches, Mentions;
    forall i, v | 0 <= i < |order| && Edge(m, order[i], v) && v in seen + {id} && Emitted(m[v].kind)
      ensures v in order[..i] || Reaches(m, v, order[i])
    {
      assert order[i] in order;
    }
  }

  /** All references of the shape have been walked: its own walk ends. */
  lemma EndWalk(m: Model, seen: set<string>, order: seq<string>, open: set<string>, id: string)
    requires id !in open && Walk(m, seen, order, open + {id})
    requires forall v :: Edge(m, id, v) ==> IsPrimitive(v) || v in seen
    requires forall o :: o in open ==> Reaches(m, o, id)
    ensures Walk(m, seen, if Emitted(m[id].kind) then order + [id] else order, open)
  {
    hide Reaches, Mentions;
    assert id in open + {id};
    var order' := if Emitted(m[id].kind) then order + [id] else order;
    forall i, v | 0 <= i < |order'| && Edge(m, order'[i], v) && v in seen && Emitted(m[v].kind)
      ensures v in order'[..i] || Reaches(m, v, order'[i])
    {
      if i < |order| {
        assert order'[..i] == order[..i] && order'[i] == order[i];
      } else {
        assert order'[..i] == order;
        if v == id {
          ReachesSelf(m, id);
        }
      }
    }
  }

  // ----- the order of the walk

  ghost predicate Lists(keys: seq<string>, names: set<string>) {
    Sorted(keys) && NoRepeats(keys) && forall x :: x in keys <==> x in names
  }

  lemma {:induction false} CanBeListed(names: set<string>)
    ensures exists keys :: Lists(keys, names)
  {
    if names == {} {
      assert Lists([], names);
    } else {
      var x :| x in names;
      CanBeListed(names - {x});
      var keys :| Lists(keys, names - {x});
      OneMore(keys, x);
      SortSorts(keys + [x]);
      SameElements(keys + [x], Sort(keys + [x]));
      assert Lists(Sort(keys + [x]), names);
    }
  }

  /** The names of a set in ascending order. */
  ghost function InOrder(names: set<string>): (keys: seq<string>)
    ensures Lists(keys, names)
  {
    CanBeListed(names);
    var keys :| Lists(keys, names);
    keys
  }

  function TargetsOf(members: map<string, string>, names: seq<string>): seq<string>
    requires forall n :: n in names ==> n in members
  {
    seq(|names|, i requires 0 <= i < |names| => members[names[i]])
  }

  function IfAny(target: Option<string>): seq<string> {
    if target.Some? then [target.value] else []
  }

  /** What a shape refers to, in the order in which it is visited: members by name,
      keys before values. */
  ghost function Targets(s: Shape): seq<string> {
    match s.kind
    case Structure => TargetsOf(s.members, InOrder(s.members.Keys))
    case Union => TargetsOf(s.members, InOrder(s.members.Keys))
    case ListShape => IfAny(s.member)
    case SetShape => IfAny(s.member)
    case MapShape => IfAny(s.key) + IfAny(s.value)
    case _ => []
  }

  /** How a walk ends: whether it succeeds, what is marked and what is listed. */
  datatype Visited = Visited(ok: bool, seen: set<string>, order: seq<string>)

  /** The walk as a function of the model alone: mark the shape, visit what it refers
      to, then list it. */
  ghost function Visit(m: Model, id: string, seen: set<string>, order: seq<string>): (v: Visited)
    requires seen <= m.Keys
    ensures seen <= v.seen <= m.Keys
    decreases |m.Keys - seen|, 0
  {
    if id in seen || IsPrimitive(id) then Visited(true, seen, order)
    else if id !in m then Visited(false, seen, order)
    else if !Supported(m[id].kind) then Visited(false, seen + {id}, order)
    else
      LessLeft(m.Keys, seen, seen + {id});
      var v := VisitAll(m, Targets(m[id]), seen + {id}, order);
      if v.ok && Emitted(m[id].kind) then v.(order := v.order + [id]) else v
  }

  ghost function VisitAll(m: Model, targets: seq<string>, seen: set<string>, order: seq<string>): (v: Visited)
    requires seen <= m.Keys
    ensures seen <= v.seen <= m.Keys
    decreases |m.Keys - seen|, |targets|
  {
    if targets == [] then Visited(true, seen, order)
    else
      var v := Visit(m, targets[0], seen, order);
      LessLeft(m.Keys, seen, v.seen);
      if v.ok then VisitAll(m, targets[1..], v.seen, v.order) else v
  }

  lemma LessLeft(all: set<string>, seen: set<string>, more: set<string>)
    requires seen <= more <= all
    ensures |all - more| <= |all - seen| && (more != seen ==> |all - more| < |all - seen|)
  {
    assert all - seen == (all - more) + (more - seen);
    assert more != seen ==> more - seen != {};
  }

  /** The rest of a list is visited in the state that its front leaves. */
  lemma {:induction false} VisitBoth(m: Model, a: seq<string>, b: seq<string>, seen: set<string>, order: seq<string>)
    requires seen <= m.Keys
    ensures var v := VisitAll(m, a, seen, order);
      VisitAll(m, a + b, seen, order) == if v.ok then VisitAll(m, b, v.seen, v.order) else v
    decreases |a|
  {
    hide Visit;
    if a == [] {
      assert a + b == b;
    } else {
      assert (a + b)[0] == a[0] && (a + b)[1..] == a[1..] + b;
      var v := Visit(m, a[0], seen, order);
      if v.ok {
        VisitBoth(m, a[1..], b, v.seen, v.order);
      }
    }
  }

  lemma VisitOne(m: Model, id: string, seen: set<string>, order: seq<string>)
    requires seen <= m.Keys
    ensures VisitAll(m, [id], seen, order) == Visit(m, id, seen, order)
    ensures VisitAll(m, [], seen, order) == Visited(true, seen, order)
  {
    hide Visit;
    var v := Visit(m, id, seen, order);
    assert [id][1..] == [];
    assert VisitAll(m, [], v.seen, v.order) == Visited(true, v.seen, v.order);
  }

  /** Input, output and errors, in the order in which they are visited. */
  function RootList(op: Shape): seq<string> {
    IfAny(op.input) + (IfAny(op.output) + op.errors)
  }

  function RootLists(m: Model, ids: seq<string>): seq<string>
    requires forall id :: id in ids ==> id in m
  {
    if ids == [] then [] else RootLists(m, ids[..|ids| - 1]) + RootList(m[ids[|ids| - 1]])
  }

  // ----- operations

  /** The part of an ID after its first '#', or the whole ID. */
  function ShortName(id: string): string {
    if id == [] then id else if '#' in id then AfterHash(id) else id
  }

  function AfterHash(id: string): string {
    if id == [] then id else if id[0] == '#' then id[1..] else AfterHash(id[1..])
  }

  function Matches(m: Model, name: string): set<string> {
    set id | id in m && m[id].kind == OperationShape && ShortName(id) == name
  }

  /** An ID spells a name that stands behind its first '#', or that it is itself. */
  ghost predicate Spells(id: string, name: string) {
    || (id == name && '#' !in id)
    || exists k :: 0 <= k < |id| && id[k] == '#' && '#' !in id[..k] && id[k + 1..] == name
  }

  lemma ShortNameSpelled(id: string, name: string)
    ensures ShortName(id) == name <==> Spells(id, name)
  {
    if '#' in id {
      var k := AfterFirstHash(id);
      FirstIsOne(id, k);
    }
  }

  lemma FirstIsOne(id: string, k: nat)
    requires k < |id| && id[k] == '#' && '#' !in id[..k]
    ensures forall j :: 0 <= j < k ==> id[j] != '#'
    ensures forall j :: k < j < |id| ==> '#' in id[..j]
  {
    forall j | 0 <= j < k ensures id[j] != '#' {
      assert id[..k][j] == id[j];
    }
    forall j | k < j < |id| ensures '#' in id[..j] {
      assert id[..j][k] == '#';
    }
  }

  lemma {:induction false} AfterFirstHash(id: string) returns (k: nat)
    requires '#' in id
    ensures k < |id| && id[k] == '#' && '#' !in id[..k] && id[k + 1..] == AfterHash(id)
  {
    if id[0] == '#' {
      k := 0;
    } else {
      var rest := id[1..];
      assert id == [id[0]] + rest;
      k := AfterFirstHash(rest);
      FrontOf(id[0], rest, k);
      k := k + 1;
    }
  }

  lemma FrontOf(c: char, rest: string, k: nat)
    requires k < |rest|
    ensures ([c] + rest)[..k + 1] == [c] + rest[..k] && ([c] + rest)[k + 2..] == rest[k + 1..]
  {
  }

  /** A name in a namespace is its own short name, and so is a name without one. */
  lemma ShortNameOf(ns: string, name: string)
    requires '#' !in ns
    ensures ShortName(ns + "#" + name) == name && ShortName(ns) == ns
  {
    var id := ns + "#" + name;
    assert id[|ns|] == '#' && id[..|ns|] == ns && id[|ns| + 1..] == name;
    ShortNameSpelled(id, name);
    ShortNameSpelled(ns, ns);
  }

  /** LookupOperation: the only operation shape whose ID spells that name. */
  ghost predicate IsOperation(m: Model, name: string, id: string) {
    && id in m && m[id].kind == OperationShape && Spells(id, name)
    && forall x :: x in m && m[x].kind == OperationShape && Spells(x, name) ==> x == id
  }

  lemma OnlyMatch(m: Model, name: string, id: string)
    ensures IsOperation(m, name, id) <==> Matches(m, name) == {id}
  {
    hide Spells, ShortName;
    forall x ensures ShortName(x) == name <==> Spells(x, name) {
      ShortNameSpelled(x, name);
    }
    if Matches(m, name) == {id} {
      assert id in Matches(m, name);
      forall x | x in m && m[x].kind == OperationShape && Spells(x, name) ensures x == id {
        assert x in Matches(m, name);
      }
    }
  }

  function Roots(op: Shape): set<string> {
    (if op.input.Some? then {op.input.value} else {})
      + (if op.output.Some? then {op.output.value} else {})
      + (set e | e in op.errors)
  }

  /** Exactly the non-primitive shapes reached from the roots. */
  ghost predicate Exactly(m: Model, roots: set<string>, seen: set<string>) {
    forall x :: x in seen <==> !IsPrimitive(x) && ReachedFrom(m, roots, x)
  }

  ghost predicate ReachedFrom(m: Model, roots: set<string>, x: string) {
    exists r :: r in roots && Reaches(m, r, x)
  }

  lemma RootCollected(m: Model, roots: set<string>, r: string, seen0: set<string>, order0: seq<string>,
                      seen: set<string>, order: seq<string>)
    requires Exactly(m, roots, seen0) && Walk(m, seen, order, {}) && Collected(m, r, seen0, order0, seen, order)
    ensures Exactly(m, roots + {r}, seen)
  {
    hide Reaches, Path, Edge, Ordered;
    forall x ensures x in seen <==> !IsPrimitive(x) && ReachedFrom(m, roots + {r}, x) {
      if x in seen {
        if x in seen0 {
          var q :| q in roots && Reaches(m, q, x);
          assert q in roots + {r};
        } else {
          assert r in roots + {r};
        }
      }
      if !IsPrimitive(x) && ReachedFrom(m, roots + {r}, x) {
        var q :| q in roots + {r} && Reaches(m, q, x);
        if q in roots {
          assert x in seen0;
        } else {
          SeenClosed(m, seen, order, r, x);
        }
      }
    }
  }

  lemma SeenClosed(m: Model, seen: set<string>, order: seq<string>, r: string, x: string)
    requires Walk(m, seen, order, {}) && (IsPrimitive(r) || r in seen) && Reaches(m, r, x) && !IsPrimitive(x)
    ensures x in seen
  {
    hide Ordered;
    var n: nat :| Path(m, r, x, n);
    NoWayOut(m, r, x, n);
    ClosedContains(m, seen, r, x, n);
  }

  /** Input, output and errors reach nothing bad. */
  ghost predicate RootsOk(m: Model, op: Shape) {
    && (op.input.Some? ==> !ReachesBad(m, op.input.value))
    && (op.output.Some? ==> !ReachesBad(m, op.output.value))
    && forall e :: e in op.errors ==> !ReachesBad(m, e)
  }

  lemma RootsAre(m: Model, op: Shape)
    ensures forall r :: r in Roots(op) <==> Names(op, r)
    ensures RootsOk(m, op) <==> forall r :: r in Roots(op) ==> !ReachesBad(m, r)
  {
    hide ReachesBad;
    forall e | e in op.errors ensures e in Roots(op) {
    }
  }

  /** A successful walk has met nothing bad. */
  lemma NothingBad(m: Model, roots: set<string>, seen: set<string>, order: seq<string>, r: string)
    requires Exactly(m, roots, seen) && Walk(m, seen, order, {}) && r in roots
    ensures !ReachesBad(m, r)
  {
    hide Reaches, Ordered;
    forall x | Reaches(m, r, x) ensures !Bad(m, x) {
      assert ReachedFrom(m, roots, x);
    }
  }

  ghost predicate OperationOk(m: Model, name: string) {
    exists id :: IsOperation(m, name, id) && RootsOk(m, m[id])
  }

  /** r is named by one of the operations. */
  ghost predicate RootOf(m: Model, names: seq<string>, r: string) {
    exists n, id :: n in names && IsOperation(m, n, id) && Names(m[id], r)
  }

  /** The operation names the shape as its input, its output or an error. */
  predicate Names(op: Shape, r: string) {
    op.input == Some(r) || op.output == Some(r) || r in op.errors
  }

  /** The roots grew by exactly those of the named operations. */
  ghost predicate Gained(m: Model, names: seq<string>, before: set<string>, after: set<string>) {
    forall r :: r in after <==> r in before || RootOf(m, names, r)
  }

  lemma GainedNone(m: Model, roots: set<string>)
    ensures Gained(m, [], roots, roots)
  {
  }

  lemma GainedNext(m: Model, names: seq<string>, name: string, before: set<string>, mid: set<string>, after: set<string>)
    requires Gained(m, names, before, mid) && OperationOk(m, name)
    requires forall id :: IsOperation(m, name, id) ==> forall r :: r in after <==> r in mid || Names(m[id], r)
    ensures Gained(m, names + [name], before, after)
  {
    hide Names, RootsOk, RootOf, Spells;
    var id :| IsOperation(m, name, id);
    RootOfOne(m, name);
    forall r ensures r in after <==> r in before || RootOf(m, names + [name], r) {
      RootOfAppend(m, names, name, r);
    }
  }

  lemma RootOfAppend(m: Model, names: seq<string>, name: string, r: string)
    ensures RootOf(m, names + [name], r) <==> RootOf(m, names, r) || RootOf(m, [name], r)
  {
    hide Names, Spells;
    if RootOf(m, names, r) {
      var n, id :| n in names && IsOperation(m, n, id) && Names(m[id], r);
      assert n in names + [name];
    }
    if RootOf(m, [name], r) {
      var n, id :| n in [name] && IsOperation(m, n, id) && Names(m[id], r);
      assert n in names + [name];
    }
  }

  /** The operation of a name is the only one. */
  lemma RootOfOne(m: Model, name: string)
    ensures forall r, id :: IsOperation(m, name, id) ==> (RootOf(m, [name], r) <==> Names(m[id], r))
  {
    hide Names, Spells;
    forall r, id | IsOperation(m, name, id)
      ensures RootOf(m, [name], r) <==> Names(m[id], r)
    {
      if Names(m[id], r) {
        assert name in [name];
      }
    }
  }

  lemma OperationOutcome(m: Model, name: string, ok: bool)
    requires ok ==> exists id :: IsOperation(m, name, id)
    requires forall id :: IsOperation(m, name, id) ==> (ok <==> RootsOk(m, m[id]))
    ensures ok <==> OperationOk(m, name)
  {
    hide RootsOk, Spells;
  }

  ghost predicate AreOperations(m: Model, names: seq<string>, ids: seq<string>)
    ensures AreOperations(m, names, ids) ==> forall id :: id in ids ==> id in m
  {
    |ids| == |names| && forall i :: 0 <= i < |ids| ==> IsOperation(m, names[i], ids[i])
  }

  /** The walk over the roots of these operations leads from one state to another. */
  ghost predicate ListedBy(m: Model, names: seq<string>, seen0: set<string>, order0: seq<string>,
                           seen: set<string>, order: seq<string>)
    requires seen0 <= m.Keys
  {
    exists ids :: AreOperations(m, names, ids)
      && Visited(true, seen, order) == VisitAll(m, RootLists(m, ids), seen0, order0)
  }

  lemma ListedByNone(m: Model, seen: set<string>, order: seq<string>)
    requires seen <= m.Keys
    ensures ListedBy(m, [], seen, order, seen, order)
  {
    assert AreOperations(m, [], []);
    assert RootLists(m, []) == [];
  }

  /** One more operation is visited in the state that those before it left. */
  lemma ListedByNext(m: Model, names: seq<string>, name: string, seen0: set<string>, order0: seq<string>,
                     seen1: set<string>, order1: seq<string>, seen: set<string>, order: seq<string>)
    requires seen0 <= m.Keys && seen1 <= m.Keys && ListedBy(m, names, seen0, order0, seen1, order1)
    requires OperationOk(m, name)
    requires forall id :: IsOperation(m, name, id) ==> Visited(true, seen, order) == VisitAll(m, RootList(m[id]), seen1, order1)
    ensures ListedBy(m, names + [name], seen0, order0, seen, order)
  {
    hide VisitAll, RootList, Spells, RootsOk;
    var id :| IsOperation(m, name, id);
    var ids :| AreOperations(m, names, ids)
      && Visited(true, seen1, order1) == VisitAll(m, RootLists(m, ids), seen0, order0);
    assert (ids + [id])[..|ids|] == ids;
    VisitBoth(m, RootLists(m, ids), RootList(m[id]), seen0, order0);
    assert AreOperations(m, names + [name], ids + [id]);
  }

  class Gen {
    const model: Model
    var shapeSeen: set<string>
    var shapeOrder: seq<string>
    var operations: seq<string>
    ghost var roots: set<string>

    /** What holds after any sequence of successful collectOperation calls. */
    ghost predicate Valid()
      reads this
    {
      Walk(model, shapeSeen, shapeOrder, {}) && Exactly(model, roots, shapeSeen)
    }

    constructor (model: Model)
      ensures Valid()
      ensures this.model == model && shapeSeen == {} && shapeOrder == [] && operations == [] && roots == {}
    {
      this.model := model;
      shapeSeen, shapeOrder, operations, roots := {}, [], [], {};
    }

    /** One root of an operation. */
    method CollectRoot(id: string) returns (ok: bool)
      requires Valid()
      modifies this
      ensures ok ==> Valid() && roots == old(roots) + {id} && old(shapeOrder) <= shapeOrder
      ensures !ok ==> ReachesBad(model, id)
      ensures operations == old(operations)
      ensures old(shapeSeen) <= model.Keys && Visited(ok, shapeSeen, shapeOrder) == Visit(model, id, old(shapeSeen), old(shapeOrder))
    {
      hide Walk, Exactly, Reaches, Collected, Visit;
      ok := CollectShape(id, {});
      if ok {
        RootCollected(model, roots, id, old(shapeSeen), old(shapeOrder), shapeSeen, shapeOrder);
        OrderGrows(model, id, old(shapeSeen), old(shapeOrder), shapeSeen, shapeOrder);
        roots := roots + {id};
      }
    }

    /** Succeeds exactly when the name is one operation's and nothing bad is
        reached from its input, output and errors; then the marked shapes are
        exactly the non-primitive ones reached from all operations so far. */
    method CollectOperation(name: string) returns (ok: bool)
      requires Valid()
      modifies this
      ensures ok <==> OperationOk(model, name)
      ensures ok ==> Valid() && operations == old(operations) + [name] && old(shapeOrder) <= shapeOrder
      ensures forall id :: IsOperation(model, name, id) ==>
        && (ok <==> RootsOk(model, model[id]))
        && (ok ==> forall r :: r in roots <==> r in old(roots) || Names(model[id], r))
      ensures old(shapeSeen) <= model.Keys
      ensures ok ==> forall id :: IsOperation(model, name, id) ==>
        Visited(true, shapeSeen, shapeOrder) == VisitAll(model, RootList(model[id]), old(shapeSeen), old(shapeOrder))
    {
      SeenIsKnown();
      hide VisitAll, Walk, Exactly, ShortName, RootsOk, Roots, Names, Spells;
      var matches := Matches(model, name);
      SingletonSize(matches);
      forall id ensures IsOperation(model, name, id) <==> matches == {id} {
        OnlyMatch(model, name, id);
      }
      if |matches| != 1 {
        OperationOutcome(model, name, false);
        return false;
      }
      var id: string := TheOnly(matches);
      assert IsOperation(model, name, id);
      RootsAre(model, model[id]);
      ok := CollectRoots(model[id]);
      if ok {
        operations := operations + [name];
      }
      OperationOutcome(model, name, ok);
    }

    method CollectRootIfAny(id: Option<string>) returns (ok: bool)
      requires Valid()
      modifies this
      ensures ok ==> Valid() && old(shapeOrder) <= shapeOrder
      ensures ok ==> roots == old(roots) + if id.Some? then {id.value} else {}
      ensures !ok ==> id.Some? && ReachesBad(model, id.value)
      ensures operations == old(operations)
      ensures old(shapeSeen) <= model.Keys
      ensures Visited(ok, shapeSeen, shapeOrder) == VisitAll(model, IfAny(id), old(shapeSeen), old(shapeOrder))
    {
      hide ReachesBad, Visit, VisitAll, Exactly, Ordered;
      if id.Some? {
        VisitOne(model, id.value, shapeSeen, shapeOrder);
        ok := CollectRoot(id.value);
      } else {
        VisitOne(model, "", shapeSeen, shapeOrder);
        ok := true;
      }
    }

    method CollectErrors(errors: seq<string>) returns (ok: bool)
      requires Valid()
      modifies this
      ensures ok ==> Valid() && old(shapeOrder) <= shapeOrder
      ensures ok ==> roots == old(roots) + (set e | e in errors)
      ensures !ok ==> exists e :: e in errors && ReachesBad(model, e)
      ensures operations == old(operations)
      ensures old(shapeSeen) <= model.Keys
      ensures Visited(ok, shapeSeen, shapeOrder) == VisitAll(model, errors, old(shapeSeen), old(shapeOrder))
    {
      hide ReachesBad, Visit, VisitAll, Exactly, Ordered, Valid;
      SeenIsKnown();
      var i := 0;
      assert errors[0..] == errors;
      while i < |errors|
        invariant 0 <= i <= |errors|
        invariant Valid() && operations == old(operations) && old(shapeOrder) <= shapeOrder
        invariant roots == old(roots) + (set e | e in errors[..i])
        invariant shapeSeen <= model.Keys
        invariant VisitAll(model, errors[i..], shapeSeen, shapeOrder) == VisitAll(model, errors, old(shapeSeen), old(shapeOrder))
      {
        assert errors[i..] == [errors[i]] + errors[i + 1..];
        VisitBoth(model, [errors[i]], errors[i + 1..], shapeSeen, shapeOrder);
        VisitOne(model, errors[i], shapeSeen, shapeOrder);
        ok := CollectRoot(errors[i]);
        if !ok {
          assert errors[i] in errors;
          return;
        }
        SeenIsKnown();
        assert errors[..i + 1] == errors[..i] + [errors[i]];
        i := i + 1;
      }
      VisitOne(model, "", shapeSeen, shapeOrder);
      assert errors[..i] == errors && errors[i..] == [];
      ok := true;
    }

    lemma SeenIsKnown()
      requires Valid()
      ensures shapeSeen <= model.Keys
    {
      hide Exactly, Ordered;
    }

    /** Input, output and errors, in that order. */
    method CollectRoots(op: Shape) returns (ok: bool)
      requires Valid()
      modifies this
      ensures ok ==> Valid() && roots == old(roots) + Roots(op) && old(shapeOrder) <= shapeOrder
      ensures ok <==> RootsOk(model, op)
      ensures operations == old(operations)
      ensures old(shapeSeen) <= model.Keys
      ensures Visited(ok, shapeSeen, shapeOrder) == VisitAll(model, RootList(op), old(shapeSeen), old(shapeOrder))
    {
      hide ReachesBad, Valid, Visit, VisitAll;
      SeenIsKnown();
      VisitBoth(model, IfAny(op.input), IfAny(op.output) + op.errors, shapeSeen, shapeOrder);
      ok := CollectRootIfAny(op.input);
      if !ok {
        return;
      }
      SeenIsKnown();
      VisitBoth(model, IfAny(op.output), op.errors, shapeSeen, shapeOrder);
      ok := CollectRootIfAny(op.output);
      if !ok {
        return;
      }
      ok := CollectErrors(op.errors);
      if !ok {
        return;
      }
      assert roots == old(roots) + Roots(op);
      RootsAre(model, op);
      forall r | r in Roots(op) ensures !ReachesBad(model, r) {
        ValidNothingBad(r);
      }
    }

    lemma ValidNothingBad(r: string)
      requires Valid() && r in roots
      ensures !ReachesBad(model, r)
    {
      hide Walk, Exactly, ReachesBad;
      NothingBad(model, roots, shapeSeen, shapeOrder, r);
    }

    // What holds of the list after any sequence of successful calls.

    /** A shape that a listed one refers to, if it is of an emitted kind, is listed,
        and before it unless it can itself get back to it; nothing is listed twice. */
    lemma ListedFirst(i: nat, v: string)
      requires Valid() && i < |shapeOrder|
      requires Edge(model, shapeOrder[i], v) && !IsPrimitive(v) && v in model && Emitted(model[v].kind)
      ensures v in shapeOrder && (v in shapeOrder[..i] || Reaches(model, v, shapeOrder[i]))
      ensures forall j :: i < j < |shapeOrder| && shapeOrder[j] == v ==> Reaches(model, v, shapeOrder[i])
      ensures NoRepeats(shapeOrder)
    {
      hide Walk, Exactly, Reaches, Edge, Emitted;
      PostOrder(model, shapeSeen, shapeOrder, i, v);
    }

    /** The type that a listed shape's reference names is declared by its own shape
        exactly when that is neither an intEnum nor under the primitive prefix. */
    lemma TypesDeclared(u: string, v: string)
      requires Valid() && u in shapeOrder && Edge(model, u, v) && GoTypeForRef(model, v).Named?
      ensures v in model && (Declares(model, shapeOrder, v) <==> !model[v].kind.IntEnum? && !IsPrimitive(v))
      ensures ListedInModel() && (GoTypeForRef(model, v).name in Declared(model, shapeOrder)
                <==> (!model[v].kind.IntEnum? && !IsPrimitive(v)) || Namesake(v))
    {
      hide Exactly, Reaches, Edge, Emitted, Primitive, ShortName, Ordered, Rendered, IsPrimitive;
      ReferencesDeclared(model, shapeSeen, shapeOrder, u, v);
      ListedAreKnown();
      NameDeclared(v);
    }

    ghost predicate ListedInModel()
      reads this
    {
      forall x :: x in shapeOrder ==> x in model
    }

    /** Another declared shape has the same short name. */
    ghost predicate Namesake(v: string)
      reads this
    {
      exists x :: x in shapeOrder && x != v && Declares(model, shapeOrder, x) && ShortName(x) == ShortName(v)
    }

    lemma ListedAreKnown()
      requires Valid()
      ensures ListedInModel()
    {
      hide Exactly, Ordered;
    }

    /** A name is declared by its own shape or by a namesake. */
    lemma NameDeclared(v: string)
      requires ListedInModel() && GoTypeForRef(model, v).Named?
      ensures GoTypeForRef(model, v).name in Declared(model, shapeOrder) <==> Declares(model, shapeOrder, v) || Namesake(v)
    {
      hide ShortName, Rendered, Primitive;
      assert GoTypeForRef(model, v).name == ShortName(v);
      if ShortName(v) in Declared(model, shapeOrder) {
        var x :| x in shapeOrder && Rendered(model[x].kind) && ShortName(x) == ShortName(v);
        assert Declares(model, shapeOrder, x);
      }
      if Namesake(v) {
        var x :| x in shapeOrder && x != v && Declares(model, shapeOrder, x) && ShortName(x) == ShortName(v);
        assert ShortName(x) in Declared(model, shapeOrder);
      }
    }

    /** So is the element type of a flattened list field; but under a list with a
        primitive ID, which is not walked, only if it is reached otherwise. */
    lemma ElementTypesDeclared(u: string, l: string, e: string)
      requires Valid() && u in shapeOrder && Edge(model, u, l) && l in model && model[l].kind in {ListShape, SetShape}
      requires model[l].member == Some(e) && GoTypeForRef(model, e).Named?
      ensures e in model && (Declares(model, shapeOrder, e) <==>
                && !model[e].kind.IntEnum? && !IsPrimitive(e)
                && (!IsPrimitive(l) || ReachedFrom(model, roots, e)))
      ensures ListedInModel() && (GoTypeForRef(model, e).name in Declared(model, shapeOrder)
                <==> Declares(model, shapeOrder, e) || Namesake(e))
    {
      hide Reaches, Emitted, Primitive, ShortName, Ordered, Namesake;
      ListedAreKnown();
      NameDeclared(e);
      if !IsPrimitive(l) {
        ElementsDeclared(model, shapeSeen, shapeOrder, u, l, e);
      }
    }

    /** And the type an operation's input, output or error names. */
    lemma RootTypesDeclared(r: string)
      requires Valid() && r in roots && GoTypeForRef(model, r).Named?
      ensures r in model && (Declares(model, shapeOrder, r) <==> !model[r].kind.IntEnum? && !IsPrimitive(r))
      ensures ListedInModel() && (GoTypeForRef(model, r).name in Declared(model, shapeOrder)
                <==> (!model[r].kind.IntEnum? && !IsPrimitive(r)) || Namesake(r))
    {
      hide Walk, Exactly, Reaches, Edge, Emitted, Primitive, ShortName, Namesake, Declared, ListedInModel;
      RootsDeclared(model, roots, shapeSeen, shapeOrder, r);
      ListedAreKnown();
      NameDeclared(r);
    }

    /** Emit's loop over the requested operations: it succeeds exactly when each
        name is one operation's that reaches nothing bad, and then the marked
        shapes are exactly the non-primitive ones those operations reach. */
    method CollectAll(names: seq<string>) returns (ok: bool)
      requires Valid()
      modifies this
      ensures ok ==> Valid() && operations == old(operations) + names
      ensures ok <==> forall n :: n in names ==> OperationOk(model, n)
      ensures ok ==> Gained(model, names, old(roots), roots)
      ensures old(shapeSeen) <= model.Keys
      ensures ok ==> ListedBy(model, names, old(shapeSeen), old(shapeOrder), shapeSeen, shapeOrder)
    {
      SeenIsKnown();
      hide VisitAll, RootList, ListedBy, IsOperation, Valid, RootsOk, Names, OperationOk, Gained;
      GainedNone(model, roots);
      ListedByNone(model, shapeSeen, shapeOrder);
      var i := 0;
      while i < |names|
        invariant 0 <= i <= |names|
        invariant ListedBy(model, names[..i], old(shapeSeen), old(shapeOrder), shapeSeen, shapeOrder)
        invariant Valid() && operations == old(operations) + names[..i]
        invariant forall n :: n in names[..i] ==> OperationOk(model, n)
        invariant Gained(model, names[..i], old(roots), roots)
      {
        ghost var seen1, order1, roots1 := shapeSeen, shapeOrder, roots;
        var c := CollectOperation(names[i]);
        if !c {
          return false;
        }
        assert names[..i + 1] == names[..i] + [names[i]];
        GainedNext(model, names[..i], names[i], old(roots), roots1, roots);
        ListedByNext(model, names[..i], names[i], old(shapeSeen), old(shapeOrder), seen1, order1, shapeSeen, shapeOrder);
        i := i + 1;
      }
      assert names[..|names|] == names;
      return true;
    }

    /** Terminates on every model; on success everything newly marked is reached
        from the shape, and the walk's invariant stands; it fails only if
        something bad is reached. */
    method CollectShape(id: string, ghost open: set<string>) returns (ok: bool)
      requires Walk(model, shapeSeen, shapeOrder, open)
      requires forall o :: o in open ==> Reaches(model, o, id)
      modifies this`shapeSeen, this`shapeOrder
      ensures ok ==> Walk(model, shapeSeen, shapeOrder, open)
      ensures ok ==> Collected(model, id, old(shapeSeen), old(shapeOrder), shapeSeen, shapeOrder)
      ensures !ok ==> ReachesBad(model, id)
      ensures old(shapeSeen) <= model.Keys
      ensures Visited(ok, shapeSeen, shapeOrder) == Visit(model, id, old(shapeSeen), old(shapeOrder))
      decreases model.Keys - shapeSeen, 0
    {
      hide Walk, Reaches, Mentions, VisitAll, Targets;
      SeenInModel(model, shapeSeen, shapeOrder, open);
      if id in shapeSeen || IsPrimitive(id) {
        return true;
      }
      ReachesSelf(model, id);
      if id !in model || !Supported(model[id].kind) {
        assert Bad(model, id);
        if id in model {
          shapeSeen := shapeSeen + {id};
        }
        return false;
      }
      var sh := model[id];
      BeginWalk(model, shapeSeen, shapeOrder, open, id);
      shapeSeen := shapeSeen + {id};
      ok := CollectTargets(id, sh, open);
      if !ok {
        return;
      }
      EndWalk(model, shapeSeen, shapeOrder, open, id);
      if Emitted(sh.kind) {
        shapeOrder := shapeOrder + [id];
      }
    }

    /** The switch over shape types: visits what the shape refers to. */
    method CollectTargets(id: string, sh: Shape, ghost open: set<string>) returns (ok: bool)
      requires id in model && sh == model[id] && !IsPrimitive(id) && id !in open
      requires Walk(model, shapeSeen, shapeOrder, open + {id})
      requires forall o :: o in open ==> Reaches(model, o, id)
      modifies this`shapeSeen, this`shapeOrder
      ensures ok ==> Walk(model, shapeSeen, shapeOrder, open + {id})
      ensures ok ==> Collected(model, id, old(shapeSeen), old(shapeOrder), shapeSeen, shapeOrder)
      ensures ok ==> forall v :: Edge(model, id, v) ==> IsPrimitive(v) || v in shapeSeen
      ensures !ok ==> ReachesBad(model, id)
      ensures old(shapeSeen) <= model.Keys
      ensures Visited(ok, shapeSeen, shapeOrder) == VisitAll(model, Targets(sh), old(shapeSeen), old(shapeOrder))
      decreases model.Keys - shapeSeen, 3
    {
      hide Walk, Reaches, Collected, Visit, VisitAll;
      SelfSeen(model, shapeSeen, shapeOrder, open, id);
      VisitOne(model, id, shapeSeen, shapeOrder);
      ok := true;
      match sh.kind
      case Structure => ok := CollectMembers(id, sh, open);
      case Union => ok := CollectMembers(id, sh, open);
      case ListShape => ok := CollectIfAny(id, sh.member, open);
      case SetShape => ok := CollectIfAny(id, sh.member, open);
      case MapShape =>
        ok := CollectIfAny(id, sh.key, open);
        VisitBoth(model, IfAny(sh.key), IfAny(sh.value), old(shapeSeen), old(shapeOrder));
        if !ok {
          return;
        }
        ghost var seen1, order1 := shapeSeen, shapeOrder;
        ok := CollectIfAny(id, sh.value, open);
        if ok {
          CollectedTwice(model, id, old(shapeSeen), old(shapeOrder), seen1, order1, shapeSeen, shapeOrder);
        }
      case _ =>
    }

    method CollectIfAny(id: string, target: Option<string>, ghost open: set<string>) returns (ok: bool)
      requires target.Some? ==> Edge(model, id, target.value)
      requires id !in open && id in shapeSeen
      requires Walk(model, shapeSeen, shapeOrder, open + {id})
      requires forall o :: o in open ==> Reaches(model, o, id)
      modifies this`shapeSeen, this`shapeOrder
      ensures ok ==> Walk(model, shapeSeen, shapeOrder, open + {id})
      ensures ok ==> Collected(model, id, old(shapeSeen), old(shapeOrder), shapeSeen, shapeOrder)
      ensures ok ==> (target.Some? ==> IsPrimitive(target.value) || target.value in shapeSeen)
      ensures ok ==> old(shapeSeen) <= shapeSeen
      ensures !ok ==> ReachesBad(model, id)
      ensures old(shapeSeen) <= model.Keys
      ensures Visited(ok, shapeSeen, shapeOrder) == VisitAll(model, IfAny(target), old(shapeSeen), old(shapeOrder))
      decreases model.Keys - shapeSeen, 2
    {
      hide Walk, Reaches, Collected, Visit, VisitAll, Edge;
      SelfSeen(model, shapeSeen, shapeOrder, open, id);
      if target.Some? {
        VisitOne(model, target.value, shapeSeen, shapeOrder);
        ok := CollectTarget(id, target.value, open);
      } else {
        VisitOne(model, id, shapeSeen, shapeOrder);
        CollectedSelf(model, id, shapeSeen, shapeOrder);
        ok := true;
      }
    }

    method CollectMembers(id: string, sh: Shape, ghost open: set<string>) returns (ok: bool)
      requires id in model && sh == model[id] && !IsPrimitive(id) && id !in open && (sh.kind.Structure? || sh.kind.Union?)
      requires Walk(model, shapeSeen, shapeOrder, open + {id})
      requires id in shapeSeen && shapeSeen <= model.Keys
      requires forall o :: o in open ==> Reaches(model, o, id)
      modifies this`shapeSeen, this`shapeOrder
      ensures ok ==> Walk(model, shapeSeen, shapeOrder, open + {id})
      ensures ok ==> Collected(model, id, old(shapeSeen), old(shapeOrder), shapeSeen, shapeOrder)
      ensures ok ==> forall v :: Edge(model, id, v) ==> IsPrimitive(v) || v in shapeSeen
      ensures !ok ==> ReachesBad(model, id)
      ensures Visited(ok, shapeSeen, shapeOrder) == VisitAll(model, Targets(sh), old(shapeSeen), old(shapeOrder))
      decreases model.Keys - shapeSeen, 2
    {
      hide Walk, Reaches, Collected, Sorted, Visit, VisitAll, NoRepeats;
      var names := SortedKeys(sh.members);
      SameListing(names, InOrder(sh.members.Keys));
      ghost var targets := TargetsOf(sh.members, names);
      assert targets == Targets(sh) && targets[0..] == targets;
      CollectedSelf(model, id, shapeSeen, shapeOrder);
      var i := 0;
      while i < |names|
        invariant 0 <= i <= |names|
        invariant Walk(model, shapeSeen, shapeOrder, open + {id})
        invariant Collected(model, id, old(shapeSeen), old(shapeOrder), shapeSeen, shapeOrder)
        invariant old(shapeSeen) <= shapeSeen
        invariant forall k :: 0 <= k < i ==> IsPrimitive(sh.members[names[k]]) || sh.members[names[k]] in shapeSeen
        invariant shapeSeen <= model.Keys
        invariant VisitAll(model, targets[i..], shapeSeen, shapeOrder)
               == VisitAll(model, targets, old(shapeSeen), old(shapeOrder))
      {
        assert names[i] in sh.members;
        assert targets[i..] == [targets[i]] + targets[i + 1..];
        VisitBoth(model, [targets[i]], targets[i + 1..], shapeSeen, shapeOrder);
        VisitOne(model, targets[i], shapeSeen, shapeOrder);
        ghost var seen1, order1 := shapeSeen, shapeOrder;
        ok := CollectTarget(id, sh.members[names[i]], open);
        if !ok {
          return;
        }
        CollectedTwice(model, id, old(shapeSeen), old(shapeOrder), seen1, order1, shapeSeen, shapeOrder);
        i := i + 1;
      }
      VisitOne(model, id, shapeSeen, shapeOrder);
      assert targets[i..] == [];
      ok := true;
      forall v | Edge(model, id, v) ensures IsPrimitive(v) || v in shapeSeen {
        var name :| name in sh.members && sh.members[name] == v;
        assert name in names;
      }
    }

    /** One reference of the shape being walked. */
    method CollectTarget(id: string, target: string, ghost open: set<string>) returns (ok: bool)
      requires Edge(model, id, target) && id !in open
      requires Walk(model, shapeSeen, shapeOrder, open + {id}) && id in shapeSeen
      requires forall o :: o in open ==> Reaches(model, o, id)
      modifies this`shapeSeen, this`shapeOrder
      ensures ok ==> Walk(model, shapeSeen, shapeOrder, open + {id})
      ensures ok ==> Collected(model, id, old(shapeSeen), old(shapeOrder), shapeSeen, shapeOrder)
      ensures ok ==> IsPrimitive(target) || target in shapeSeen
      ensures ok ==> old(shapeSeen) <= shapeSeen
      ensures !ok ==> ReachesBad(model, id)
      ensures old(shapeSeen) <= model.Keys && shapeSeen <= model.Keys
      ensures Visited(ok, shapeSeen, shapeOrder) == Visit(model, target, old(shapeSeen), old(shapeOrder))
      decreases model.Keys - shapeSeen, 1
    {
      hide Walk, Reaches, Mentions, Visit;
      SelfSeen(model, shapeSeen, shapeOrder, open, id);
      forall o | o in open + {id} ensures Reaches(model, o, target) {
        if o == id {
          ReachesSelf(model, target);
          ReachesFirst(model, id, target, target);
        } else {
          ReachesLast(model, o, id, target);
        }
      }
      ok := CollectShape(target, open + {id});
      if ok {
        forall x | x in shapeSeen && x !in old(shapeSeen) ensures Reaches(model, id, x) {
          ReachesFirst(model, id, target, x);
        }
      } else {
        BadFirst(model, id, target);
      }
    }
  }

  lemma BadFirst(m: Model, id: string, target: string)
    requires Edge(m, id, target) && ReachesBad(m, target)
    ensures ReachesBad(m, id)
  {
    hide Reaches;
    var x :| Reaches(m, target, x) && Bad(m, x);
    ReachesFirst(m, id, target, x);
  }

  lemma SeenInModel(m: Model, seen: set<string>, order: seq<string>, open: set<string>)
    requires Walk(m, seen, order, open)
    ensures seen <= m.Keys && open <= seen
  {
  }

  lemma SelfSeen(m: Model, seen: set<string>, order: seq<string>, open: set<string>, id: string)
    requires Walk(m, seen, order, open + {id})
    ensures id in seen && seen <= m.Keys && Collected(m, id, seen, order, seen, order)
  {
    assert id in open + {id};
  }

  lemma CollectedSelf(m: Model, id: string, seen: set<string>, order: seq<string>)
    requires id in seen
    ensures Collected(m, id, seen, order, seen, order)
  {
  }

  lemma CollectedTwice(m: Model, id: string, seen0: set<string>, order0: seq<string>,
                       seen1: set<string>, order1: seq<string>, seen2: set<string>, order2: seq<string>)
    requires Collected(m, id, seen0, order0, seen1, order1) && Collected(m, id, seen1, order1, seen2, order2)
    ensures Collected(m, id, seen0, order0, seen2, order2)
  {
    hide Reaches;
  }

  lemma OrderGrows(m: Model, id: string, seen0: set<string>, order0: seq<string>, seen: set<string>, order: seq<string>)
    requires Collected(m, id, seen0, order0, seen, order)
    ensures order0 <= order
  {
  }

  function TheOnly(s: set<string>): (x: string)
    requires |s| == 1
    ensures s == {x}
  {
    OneElement(s);
    var x :| x in s && s == {x};
    x
  }

  lemma OneElement(s: set<string>)
    requires |s| == 1
    ensures exists x :: x in s && s == {x}
  {
    var x :| x in s;
    assert |s - {x}| == 0;
    assert s == {x};
  }

  lemma SingletonSize(s: set<string>)
    ensures forall x :: s == {x} ==> |s| == 1
  {
  }

  // ----- what the list is for

  /** In the list every shape comes after what it refers to, except where the two
      lie on a reference cycle; each shape appears once; and what an emitted shape
      refers to, if it needs a declaration, is in the list too. */
  lemma PostOrder(m: Model, seen: set<string>, order: seq<string>, i: nat, v: string)
    requires Walk(m, seen, order, {}) && i < |order|
    requires Edge(m, order[i], v) && !IsPrimitive(v) && v in m && Emitted(m[v].kind)
    ensures v in order
    ensures v in order[..i] || Reaches(m, v, order[i])
    ensures forall j :: 0 <= j < |order| && order[j] == v && j > i ==> Reaches(m, v, order[i]) && Reaches(m, order[i], v)
    ensures NoRepeats(order)
  {
    hide Reaches, Mentions;
    assert order[i] in order;
    ReachesSelf(m, v);
    ReachesFirst(m, order[i], v, v);
    forall j | i < j < |order| ensures order[j] !in order[..i] {
      NotBefore(order, i, j);
    }
  }

  lemma NotBefore(order: seq<string>, i: nat, j: nat)
    requires NoRepeats(order) && i < j < |order|
    ensures order[j] !in order[..i]
  {
  }

  /** The Go type of a reference: a type of the language or its libraries, the
      name of a generated type, or no type at all. */
  datatype GoType = Builtin(text: string) | Named(name: string) | NoType

  function Primitive(id: string): Option<string> {
    if id == "smithy.api#String" then Some("string")
    else if id == "smithy.api#Integer" || id == "smithy.api#PrimitiveInteger" then Some("int32")
    else if id == "smithy.api#Long" || id == "smithy.api#PrimitiveLong" then Some("int64")
    else if id == "smithy.api#Short" || id == "smithy.api#PrimitiveShort" then Some("int16")
    else if id == "smithy.api#Boolean" || id == "smithy.api#PrimitiveBoolean" then Some("bool")
    else if id == "smithy.api#Timestamp" then Some("time.Time")
    else if id == "smithy.api#Blob" || id == "smithy.api#Document" then Some("[]byte")
    else if id == "smithy.api#Double" || id == "smithy.api#PrimitiveDouble" then Some("float64")
    else if id == "smithy.api#Float" || id == "smithy.api#PrimitiveFloat" then Some("float32")
    else if id == "smithy.api#Byte" || id == "smithy.api#PrimitiveByte" then Some("int8")
    else if id == "smithy.api#Unit" then Some("struct{}")
    else None
  }

  /** The language's own types: what the primitive shapes become, boxed or not. */
  lemma PrimitiveIntegers(id: string)
    ensures Primitive(id) == Some("int32") <==> id in {"smithy.api#Integer", "smithy.api#PrimitiveInteger"}
    ensures Primitive(id) == Some("int64") <==> id in {"smithy.api#Long", "smithy.api#PrimitiveLong"}
    ensures Primitive(id) == Some("int16") <==> id in {"smithy.api#Short", "smithy.api#PrimitiveShort"}
    ensures Primitive(id) == Some("int8") <==> id in {"smithy.api#Byte", "smithy.api#PrimitiveByte"}
  {
  }

  lemma PrimitiveNumbers(id: string)
    ensures Primitive(id) == Some("float64") <==> id in {"smithy.api#Double", "smithy.api#PrimitiveDouble"}
    ensures Primitive(id) == Some("float32") <==> id in {"smithy.api#Float", "smithy.api#PrimitiveFloat"}
    ensures Primitive(id) == Some("bool") <==> id in {"smithy.api#Boolean", "smithy.api#PrimitiveBoolean"}
  {
  }

  lemma OtherPrimitives(id: string)
    ensures Primitive(id) == Some("[]byte") <==> id in {"smithy.api#Blob", "smithy.api#Document"}
    ensures Primitive(id) == Some("string") <==> id == "smithy.api#String"
    ensures Primitive(id) == Some("time.Time") <==> id == "smithy.api#Timestamp"
    ensures Primitive(id) == Some("struct{}") <==> id == "smithy.api#Unit"
  {
  }

  /** goTypeForRef, without the pointer star that `required` decides. */
  function GoTypeForRef(m: Model, id: string): GoType {
    if Primitive(id).Some? then Builtin(Primitive(id).value)
    else if id !in m then NoType
    else if m[id].kind.Simple? then Builtin(m[id].kind.goType)
    else if Emitted(m[id].kind) then Named(ShortName(id))
    else NoType
  }

  /** The types render declares: every kind in the list but intEnum has a case. */
  predicate Rendered(k: Kind) {
    Emitted(k) && !k.IntEnum?
  }

  function Declared(m: Model, order: seq<string>): set<string>
    requires forall x :: x in order ==> x in m
  {
    set x | x in order && Rendered(m[x].kind) :: ShortName(x)
  }

  /** The shape of that ID is itself rendered. */
  predicate Declares(m: Model, order: seq<string>, id: string) {
    id in order && id in m && Rendered(m[id].kind)
  }

  /** Every reference of an emitted shape that needs a generated type gets a
      declaration of its own shape exactly when that shape is neither an intEnum
      nor defined under the primitive prefix. */
  lemma ReferencesDeclared(m: Model, seen: set<string>, order: seq<string>, u: string, v: string)
    requires Walk(m, seen, order, {}) && u in order && Edge(m, u, v) && GoTypeForRef(m, v).Named?
    ensures Declares(m, order, v) <==> !m[v].kind.IntEnum? && !IsPrimitive(v)
    ensures !m[v].kind.IntEnum? && !IsPrimitive(v) ==> GoTypeForRef(m, v).name in Declared(m, order)
  {
    hide Reaches, Mentions, Primitive, ShortName, Ordered;
  }

  /** A flattened list field names the list's element type instead; the same holds
      for that. */
  lemma ElementsDeclared(m: Model, seen: set<string>, order: seq<string>, u: string, l: string, e: string)
    requires Walk(m, seen, order, {}) && u in order && Edge(m, u, l) && l in m && m[l].kind in {ListShape, SetShape}
    requires m[l].member == Some(e) && !IsPrimitive(l) && GoTypeForRef(m, e).Named?
    ensures Declares(m, order, e) <==> !m[e].kind.IntEnum? && !IsPrimitive(e)
    ensures !m[e].kind.IntEnum? && !IsPrimitive(e) ==> GoTypeForRef(m, e).name in Declared(m, order)
  {
    hide Reaches, Primitive, ShortName, Ordered;
    assert Edge(m, l, e);
    ReferencesDeclared(m, seen, order, l, e);
  }

  /** What an operation names is declared under the same condition. */
  lemma RootsDeclared(m: Model, roots: set<string>, seen: set<string>, order: seq<string>, r: string)
    requires Walk(m, seen, order, {}) && Exactly(m, roots, seen) && r in roots && GoTypeForRef(m, r).Named?
    ensures Declares(m, order, r) <==> !m[r].kind.IntEnum? && !IsPrimitive(r)
  {
    hide Reaches, Mentions, Primitive, ShortName, Ordered;
    ReachesSelf(m, r);
    assert ReachedFrom(m, roots, r);
  }

  /** The exception is real: for this model of a structure with one intEnum field
      the walk ends with both listed, and the field's type is never declared. */
  const INT_ENUM_MODEL: Model := map[
    "S" := Shape(Structure, map["f" := "E"], None, None, None, None, None, []),
    "E" := Shape(IntEnum, map[], None, None, None, None, None, [])]

  lemma IntEnumUndeclared()
    ensures Walk(INT_ENUM_MODEL, {"S", "E"}, ["E", "S"], {})
    ensures Edge(INT_ENUM_MODEL, "S", "E") && GoTypeForRef(INT_ENUM_MODEL, "E") == Named("E")
    ensures "E" !in Declared(INT_ENUM_MODEL, ["E", "S"])
  {
    hide Edge, Reaches, ShortName, Declared;
    IntEnumEdges();
    IntEnumNames();
    var order := ["E", "S"];
    assert order[0] == "E" && order[1] == "S" && order[..1] == ["E"];
    assert "E" in order[..1] && "E" in order && "S" in order;
  }

  lemma IntEnumNames()
    ensures GoTypeForRef(INT_ENUM_MODEL, "E") == Named("E")
    ensures "E" !in Declared(INT_ENUM_MODEL, ["E", "S"])
  {
    assert ShortName("E") == "E" && ShortName("S") == "S";
  }

  lemma IntEnumEdges()
    ensures Edge(INT_ENUM_MODEL, "S", "E")
    ensures forall u, v :: Edge(INT_ENUM_MODEL, u, v) ==> u == "S" && v == "E"
  {
    var fields := map["f" := "E"];
    assert fields["f"] == "E" && "E" in fields.Values;
  }
}
