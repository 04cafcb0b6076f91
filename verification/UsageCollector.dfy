/**
 * The item and entity collectors of the two datastore generators: usage bits flow from the
 * types a call names to the types they contain, over a type graph that may be cyclic.
 * Whatever the order of the roots, collecting them all computes the least fixpoint.
 */
module UsageCollector {
  import opened ByteStrings

  type Name = string

  datatype Op = Encode | Decode | Key

  /** A usage bit mask. */
  type Usage = set<Op>

  /** A field's type: a named struct, or a wrapper over an element, or a scalar. */
  datatype FieldType = FieldType(isStruct: bool, name: Name, elem: Option<FieldType>)

  /** A declared type: a struct that can be planned, or one whose tags the planner refuses. */
  datatype Decl = Plannable(fields: seq<FieldType>) | Refused

  type Package = map<Name, Decl>

  datatype Error = NotAStruct(name: Name) | BadPlan(name: Name)

  // --- The graph ---

  /** The structs along one field's chain of element types. */
  function Chain(t: FieldType): seq<Name> {
    (if t.isStruct then [t.name] else []) + (if t.elem.Some? then Chain(t.elem.value) else [])
  }

  function Targets(fields: seq<FieldType>): seq<Name> {
    if fields == [] then [] else Chain(fields[0]) + Targets(fields[1..])
  }

  predicate Edge(pkg: Package, a: Name, b: Name) {
    a in pkg && pkg[a].Plannable? && b in Targets(pkg[a].fields)
  }

  /** The type so many elements down, if a type wraps that many. */
  function Within(t: FieldType, depth: nat): Option<FieldType> {
    if depth == 0 then Some(t)
    else if t.elem.None? then None
    else Within(t.elem.value, depth - 1)
  }

  /** A field names a struct when it is one, or wraps one at any depth. */
  predicate Names(t: FieldType, n: Name, depth: nat) {
    Within(t, depth).Some? && Within(t, depth).value.isStruct && Within(t, depth).value.name == n
  }

  lemma {:induction false} ChainExactly(t: FieldType, n: Name)
    ensures n in Chain(t) <==> exists depth: nat :: Names(t, n, depth)
  {
    assert Names(t, n, 0) <==> t.isStruct && t.name == n;
    if t.elem.Some? {
      ChainExactly(t.elem.value, n);
      if n in Chain(t.elem.value) {
        var depth: nat :| Names(t.elem.value, n, depth);
        assert Names(t, n, depth + 1);
      }
      forall depth: nat | Names(t, n, depth) && depth > 0 ensures n in Chain(t.elem.value) {
        assert Names(t.elem.value, n, depth - 1);
      }
    }
  }

  lemma {:induction false} TargetsExactly(fields: seq<FieldType>, n: Name)
    ensures n in Targets(fields) <==> exists i :: 0 <= i < |fields| && n in Chain(fields[i])
  {
    if fields != [] {
      TargetsExactly(fields[1..], n);
      assert forall i :: 1 <= i < |fields| ==> fields[1..][i - 1] == fields[i];
      if n in Targets(fields[1..]) {
        var i :| 0 <= i < |fields[1..]| && n in Chain(fields[1..][i]);
        assert n in Chain(fields[i + 1]);
      }
    }
  }

  /** One struct contains another directly when some field of the one names the other, itself or in what it wraps. */
  lemma EdgeExactly(pkg: Package, a: Name, b: Name)
    ensures Edge(pkg, a, b) <==>
            a in pkg && pkg[a].Plannable? && exists i, depth: nat :: 0 <= i < |pkg[a].fields| && Names(pkg[a].fields[i], b, depth)
  {
    hide Chain, Names, Targets;
    if a in pkg && pkg[a].Plannable? {
      var fields := pkg[a].fields;
      TargetsExactly(fields, b);
      forall i | 0 <= i < |fields| ensures b in Chain(fields[i]) <==> exists depth: nat :: Names(fields[i], b, depth) {
        ChainExactly(fields[i], b);
      }
    }
  }

  predicate IsPath(pkg: Package, p: seq<Name>) {
    forall i {:trigger p[i]} :: 0 <= i < |p| - 1 ==> Edge(pkg, p[i], p[i + 1])
  }

  /** b is contained in a, through one or more fields. */
  ghost predicate Reaches(pkg: Package, a: Name, b: Name) {
    exists p {:trigger IsPath(pkg, p)} :: IsPath(pkg, p) && |p| >= 2 && p[0] == a && p[|p| - 1] == b
  }

  /** The least solution: a root's own usage, and the non-key usage of every root that contains the type. */
  ghost predicate Justified(pkg: Package, roots: map<Name, Usage>, t: Name, op: Op) {
    exists r :: r in roots && op in roots[r] && (r == t || (op != Key && Reaches(pkg, r, t)))
  }

  lemma JustifiedStep(pkg: Package, roots: map<Name, Usage>, a: Name, b: Name, op: Op)
    requires Justified(pkg, roots, a, op) && op != Key && Edge(pkg, a, b)
    ensures Justified(pkg, roots, b, op)
  {
    var r :| r in roots && op in roots[r] && (r == a || Reaches(pkg, r, a));
    if r == a {
      assert IsPath(pkg, [a, b]);
    } else {
      var p :| IsPath(pkg, p) && |p| >= 2 && p[0] == r && p[|p| - 1] == a;
      var q := p + [b];
      assert IsPath(pkg, q);
    }
  }

  // --- The state of a collection ---

  /** Every bit the type has, its fields' types have too, its key bit aside. */
  predicate Closed(pkg: Package, usage: map<Name, Usage>, nested: set<Name>, n: Name)
    requires n in usage
  {
    forall m :: m in usage[n] - {Key} ==> Flows(pkg, usage, nested, n, m)
  }

  predicate Flows(pkg: Package, usage: map<Name, Usage>, nested: set<Name>, n: Name, op: Op) {
    n in pkg && pkg[n].Plannable? && Received(usage, nested, Targets(pkg[n].fields), op)
  }

  predicate Received(usage: map<Name, Usage>, nested: set<Name>, targets: seq<Name>, op: Op) {
    forall t :: t in targets ==> t in usage && op in usage[t] && t in nested
  }

  predicate Grown(before: map<Name, Usage>, after: map<Name, Usage>) {
    forall n :: n in before ==> n in after && before[n] <= after[n]
  }

  /** Whatever one step touched, it left closed. */
  ghost predicate TouchedClosed(pkg: Package, before: map<Name, Usage>, after: map<Name, Usage>, nested: set<Name>) {
    forall n :: n in after ==> (n in before && before[n] == after[n]) || Closed(pkg, after, nested, n)
  }

  ghost predicate Sound(pkg: Package, roots: map<Name, Usage>, usage: map<Name, Usage>, nested: set<Name>) {
    && (forall n :: n in usage ==> usage[n] != {} && forall op :: op in usage[n] ==> Justified(pkg, roots, n, op))
    && (forall t :: t in nested ==> IsNested(pkg, roots, t))
  }

  /** Some type with a non-key operation contains t directly. */
  ghost predicate IsNested(pkg: Package, roots: map<Name, Usage>, t: Name) {
    exists n, op :: Edge(pkg, n, t) && op != Key && Justified(pkg, roots, n, op)
  }

  ghost function Have(usage: map<Name, Usage>): set<(Name, Op)> {
    set n, op | n in usage && op in usage[n] :: (n, op)
  }

  ghost function Universe(pkg: Package): set<(Name, Op)> {
    set n, op | n in pkg && op in AllOps :: (n, op)
  }

  const AllOps: set<Op> := {Encode, Decode, Key}

  lemma Shrinks(pkg: Package, before: map<Name, Usage>, after: map<Name, Usage>)
    requires Grown(before, after)
    ensures Universe(pkg) - Have(after) <= Universe(pkg) - Have(before)
  {
  }

  lemma TouchedTransitive(pkg: Package, a: map<Name, Usage>, b: map<Name, Usage>, nb: set<Name>,
                          c: map<Name, Usage>, nc: set<Name>)
    requires TouchedClosed(pkg, a, b, nb) && TouchedClosed(pkg, b, c, nc) && Grown(b, c) && nb <= nc
    ensures TouchedClosed(pkg, a, c, nc)
  {
    forall n | n in c && !(n in a && a[n] == c[n])
      ensures Closed(pkg, c, nc, n)
    {
      if n in b && b[n] == c[n] {
        assert Closed(pkg, b, nb, n);
        forall op | op in c[n] - {Key} ensures Flows(pkg, c, nc, n, op) {
          assert Flows(pkg, b, nb, n, op);
        }
      }
    }
  }

  predicate GivenAll(usage: map<Name, Usage>, nested: set<Name>, targets: seq<Name>, bits: Usage) {
    forall op :: op in bits ==> Received(usage, nested, targets, op)
  }

  lemma GivenMore(a: map<Name, Usage>, na: set<Name>, b: map<Name, Usage>, nb: set<Name>,
                  targets: seq<Name>, t: Name, bits: Usage)
    requires Grown(a, b) && na <= nb
    requires GivenAll(a, na, targets, bits) && GivenAll(b, nb, [t], bits)
    ensures GivenAll(b, nb, targets + [t], bits)
  {
    forall op | op in bits ensures Received(b, nb, targets + [t], op) {
      assert Received(a, na, targets, op) && Received(b, nb, [t], op);
    }
  }

  lemma SomeBit(pkg: Package, roots: map<Name, Usage>, name: Name, bits: Usage)
    requires bits != {} && forall op :: op in bits ==> Justified(pkg, roots, name, op)
    ensures exists op :: Justified(pkg, roots, name, op)
  {
    var op :| op in bits;
  }

  /** Granting new bits to a type, before its fields are visited. */
  lemma Granted(pkg: Package, roots: map<Name, Usage>, usage: map<Name, Usage>, order: seq<Name>, nested: set<Name>,
                name: Name, bits: Usage, all: Usage)
    requires Sound(pkg, roots, usage, nested) && Listed(pkg, usage, order)
    requires name in pkg && pkg[name].Plannable? && bits != {}
    requires forall op :: op in bits ==> Justified(pkg, roots, name, op)
    requires if name in usage then all == usage[name] + bits != usage[name] else all == bits
    ensures Sound(pkg, roots, usage[name := all], nested)
    ensures Listed(pkg, usage[name := all], if name in usage then order else order + [name])
    ensures Grown(usage, usage[name := all])
    ensures Universe(pkg) - Have(usage[name := all]) < Universe(pkg) - Have(usage)
  {
    hide Justified, IsNested, Flows, Edge;
    var after := usage[name := all];
    Shrinks(pkg, usage, after);
    var op :| op in bits && !(name in usage && op in usage[name]);
    assert op in AllOps by { match op case Encode => case Decode => case Key => }
    assert (name, op) in Have(after) && (name, op) !in Have(usage) && (name, op) in Universe(pkg);
  }

  /** A type whose bits flow to its fields' types is closed, and everything else the visit touched is. */
  lemma TouchedBack(pkg: Package, start: map<Name, Usage>, grown: map<Name, Usage>, after: map<Name, Usage>,
                    nested: set<Name>, name: Name)
    requires name in grown && grown == start[name := grown[name]] && Grown(grown, after)
    requires TouchedClosed(pkg, grown, after, nested)
    requires forall op :: op in grown[name] - {Key} ==> Flows(pkg, after, nested, name, op)
    ensures TouchedClosed(pkg, start, after, nested)
  {
  }

  lemma Inherited(pkg: Package, roots: map<Name, Usage>, usage: map<Name, Usage>, nested: set<Name>,
                  name: Name, t: Name, bits: Usage)
    requires Sound(pkg, roots, usage, nested) && name in usage && bits != {} && bits <= usage[name] - {Key}
    requires Edge(pkg, name, t)
    ensures forall op :: op in bits ==> Justified(pkg, roots, t, op)
    ensures Sound(pkg, roots, usage, nested + {t})
  {
    forall op | op in bits ensures Justified(pkg, roots, t, op) {
      JustifiedStep(pkg, roots, name, t, op);
    }
    var op :| op in bits;
    assert Edge(pkg, name, t) && Justified(pkg, roots, name, op);
  }

  /** Every planned type is a plannable struct and is listed once. */
  ghost predicate Listed(pkg: Package, usage: map<Name, Usage>, order: seq<Name>) {
    && (forall n :: n in usage ==> n in pkg && pkg[n].Plannable?)
    && (forall n :: n in order <==> n in usage)
    && (forall i, j :: 0 <= i < j < |order| ==> order[i] != order[j])
  }

  lemma Planned(pkg: Package, usage: map<Name, Usage>, order: seq<Name>, name: Name)
    requires Listed(pkg, usage, order) && name in usage
    ensures name in pkg && pkg[name].Plannable?
  {
  }

  lemma Start(pkg: Package, usage: map<Name, Usage>, nested: set<Name>, name: Name, bits: Usage)
    ensures Grown(usage, usage) && TouchedClosed(pkg, usage, usage, nested)
    ensures GivenAll(usage, nested, [], bits - {Key})
    ensures bits - {Key} == {} ==> forall op :: op in bits - {Key} ==> Flows(pkg, usage, nested, name, op)
  {
  }

  lemma GrownAt(a: map<Name, Usage>, b: map<Name, Usage>, n: Name)
    requires Grown(a, b) && n in a
    ensures n in b && a[n] <= b[n]
  {
  }

  lemma GrownTransitive(a: map<Name, Usage>, b: map<Name, Usage>, c: map<Name, Usage>)
    requires Grown(a, b) && Grown(b, c)
    ensures Grown(a, c)
  {
  }

  lemma TargetEdge(pkg: Package, name: Name, i: nat)
    requires name in pkg && pkg[name].Plannable? && i < |Targets(pkg[name].fields)|
    ensures Edge(pkg, name, Targets(pkg[name].fields)[i])
  {
  }

  lemma FlowsAll(pkg: Package, usage: map<Name, Usage>, nested: set<Name>, name: Name, bits: Usage)
    requires name in pkg && pkg[name].Plannable?
    requires GivenAll(usage, nested, Targets(pkg[name].fields), bits - {Key})
    ensures forall op :: op in bits - {Key} ==> Flows(pkg, usage, nested, name, op)
  {
  }

  lemma GivenOne(usage: map<Name, Usage>, nested: set<Name>, t: Name, bits: Usage)
    requires t in usage && bits <= usage[t] && t in nested
    ensures GivenAll(usage, nested, [t], bits)
  {
  }

  class Collector {
    const pkg: Package
    var usage: map<Name, Usage>
    var order: seq<Name>
    var nested: set<Name>

    constructor (pkg: Package)
      ensures this.pkg == pkg && usage == map[] && order == [] && nested == {}
    {
      this.pkg := pkg;
      usage, order, nested := map[], [], {};
    }

    method Collect(name: Name, bits: Usage, ghost roots: map<Name, Usage>) returns (err: Option<Error>)
      requires Listed(pkg, usage, order) && Sound(pkg, roots, usage, nested)
      requires forall op :: op in bits ==> Justified(pkg, roots, name, op)
      modifies this
      ensures Listed(pkg, usage, order) && Sound(pkg, roots, usage, nested)
      ensures Grown(old(usage), usage) && old(order) <= order && old(nested) <= nested
      ensures err.None? ==> TouchedClosed(pkg, old(usage), usage, nested)
      ensures err.None? && bits != {} ==> name in usage && bits <= usage[name]
      ensures err.Some? ==> Blamed(pkg, roots, err.value)
      decreases Universe(pkg) - Have(usage), 0
    {
      hide *;
      Start(pkg, usage, nested, name, bits);
      if bits == {} {
        return None;
      }
      SomeBit(pkg, roots, name, bits);
      ghost var start, listed := usage, order;
      if name in usage {
        var before := usage[name];
        Planned(pkg, usage, order, name);
        usage := usage[name := before + bits];
        if usage[name] == before {
          assert usage == start;
          return None;
        }
      } else {
        if name !in pkg {
          Blames(pkg, roots, NotAStruct(name));
          return Some(NotAStruct(name));
        }
        if pkg[name].Refused? {
          Blames(pkg, roots, BadPlan(name));
          return Some(BadPlan(name));
        }
        usage := usage[name := bits];
        order := order + [name];
      }
      ghost var grown := usage;
      Granted(pkg, roots, start, listed, nested, name, bits, usage[name]);
      err := Recurse(name, usage[name], roots);
      GrownAt(grown, usage, name);
      GrownTransitive(start, grown, usage);
      if err.None? {
        TouchedBack(pkg, start, grown, usage, nested, name);
      }
    }

    /** Gives the types of the fields the operations of the type, in field order. */
    method Recurse(name: Name, bits: Usage, ghost roots: map<Name, Usage>) returns (err: Option<Error>)
      requires Listed(pkg, usage, order) && Sound(pkg, roots, usage, nested)
      requires name in usage && bits <= usage[name]
      modifies this
      ensures Listed(pkg, usage, order) && Sound(pkg, roots, usage, nested)
      ensures Grown(old(usage), usage) && old(order) <= order && old(nested) <= nested
      ensures err.None? ==> TouchedClosed(pkg, old(usage), usage, nested)
      ensures err.None? ==> forall op :: op in bits - {Key} ==> Flows(pkg, usage, nested, name, op)
      ensures err.Some? ==> Blamed(pkg, roots, err.value)
      decreases Universe(pkg) - Have(usage), 2
    {
      hide *;
      ghost var start := usage;
      Start(pkg, usage, nested, name, bits);
      var inherited := bits - {Key};
      if inherited == {} {
        return None;
      }
      Planned(pkg, usage, order, name);
      var targets := Targets(pkg[name].fields);
      for i := 0 to |targets|
        invariant Listed(pkg, usage, order) && Sound(pkg, roots, usage, nested)
        invariant Grown(start, usage) && old(order) <= order && old(nested) <= nested
        invariant TouchedClosed(pkg, start, usage, nested)
        invariant GivenAll(usage, nested, targets[..i], inherited)
      {
        ghost var before, narrow := usage, nested;
        Shrinks(pkg, start, usage);
        GrownAt(start, usage, name);
        TargetEdge(pkg, name, i);
        err := Pass(name, targets[i], inherited, roots);
        GrownTransitive(start, before, usage);
        if err.Some? {
          return;
        }
        TouchedTransitive(pkg, start, before, narrow, usage, nested);
        GivenMore(before, narrow, usage, nested, targets[..i], targets[i], inherited);
        assert targets[..i + 1] == targets[..i] + [targets[i]];
      }
      assert targets[..|targets|] == targets;
      FlowsAll(pkg, usage, nested, name, bits);
      return None;
    }

    method Pass(ghost name: Name, t: Name, inherited: Usage, ghost roots: map<Name, Usage>) returns (err: Option<Error>)
      requires Listed(pkg, usage, order) && Sound(pkg, roots, usage, nested)
      requires name in usage && inherited != {} && inherited <= usage[name] - {Key} && Edge(pkg, name, t)
      modifies this
      ensures Listed(pkg, usage, order) && Sound(pkg, roots, usage, nested)
      ensures Grown(old(usage), usage) && old(order) <= order && old(nested) <= nested
      ensures err.None? ==> TouchedClosed(pkg, old(usage), usage, nested)
      ensures err.None? ==> GivenAll(usage, nested, [t], inherited)
      ensures err.Some? ==> Blamed(pkg, roots, err.value)
      decreases Universe(pkg) - Have(usage), 1
    {
      hide *;
      Inherited(pkg, roots, usage, nested, name, t, inherited);
      nested := nested + {t};
      err := Collect(t, inherited, roots);
      if err.None? {
        GivenOne(usage, nested, t, inherited);
      }
    }

    /**
     * Collects every root in any order. It fails exactly when a type that needs an operation
     * cannot be planned; otherwise each type has exactly the operations it needs.
     */
    method CollectAll(names: seq<Name>, roots: map<Name, Usage>) returns (err: Option<Error>)
      requires usage == map[] && order == [] && nested == {}
      requires forall n :: n in names <==> n in roots
      modifies this
      ensures err.Some? <==> exists t, op :: Justified(pkg, roots, t, op) && !(t in pkg && pkg[t].Plannable?)
      ensures err.Some? ==> Blamed(pkg, roots, err.value)
      ensures err.None? ==> forall t, op :: t in usage && op in usage[t] <==> Justified(pkg, roots, t, op)
      ensures err.None? ==> forall t :: t in usage ==> usage[t] != {}
      ensures err.None? ==> forall t :: t in nested <==> IsNested(pkg, roots, t)
      ensures err.None? ==> (forall t :: t in order <==> t in usage) &&
                            forall i, j :: 0 <= i < j < |order| ==> order[i] != order[j]
    {
      for i := 0 to |names|
        invariant Listed(pkg, usage, order) && Sound(pkg, roots, usage, nested)
        invariant TouchedClosed(pkg, map[], usage, nested)
        invariant forall n :: n in names[..i] && roots[n] != {} ==> n in usage && roots[n] <= usage[n]
      {
        var n := names[i];
        ghost var before, wider := usage, nested;
        err := Collect(n, roots[n], roots);
        if err.Some? {
          return;
        }
        TouchedTransitive(pkg, map[], before, wider, usage, nested);
        assert names[..i + 1] == names[..i] + [n];
      }
      assert names[..|names|] == names;
      LeastFixpoint(pkg, roots, usage, nested);
      return None;
    }
  }

  /** The error names a type that is needed and cannot be planned, and says why. */
  ghost predicate Blamed(pkg: Package, roots: map<Name, Usage>, e: Error) {
    && (exists op :: Justified(pkg, roots, e.name, op))
    && match e
       case NotAStruct(name) => name !in pkg
       case BadPlan(name) => name in pkg && pkg[name].Refused?
  }

  lemma Blames(pkg: Package, roots: map<Name, Usage>, e: Error)
    requires exists op :: Justified(pkg, roots, e.name, op)
    requires match e
             case NotAStruct(name) => name !in pkg
             case BadPlan(name) => name in pkg && pkg[name].Refused?
    ensures Blamed(pkg, roots, e)
  {
  }

  /** A closed, sound state that holds the roots holds exactly what the roots justify. */
  lemma LeastFixpoint(pkg: Package, roots: map<Name, Usage>, usage: map<Name, Usage>, nested: set<Name>)
    requires Sound(pkg, roots, usage, nested)
    requires forall n :: n in usage ==> Closed(pkg, usage, nested, n)
    requires forall n :: n in roots && roots[n] != {} ==> n in usage && roots[n] <= usage[n]
    ensures forall t, op :: t in usage && op in usage[t] <==> Justified(pkg, roots, t, op)
    ensures forall t :: t in nested <==> IsNested(pkg, roots, t)
  {
    forall t, op | Justified(pkg, roots, t, op) ensures t in usage && op in usage[t] {
      var r :| r in roots && op in roots[r] && (r == t || (op != Key && Reaches(pkg, r, t)));
      if r != t {
        var p :| IsPath(pkg, p) && |p| >= 2 && p[0] == r && p[|p| - 1] == t;
        AlongPath(pkg, usage, nested, p, op, |p| - 1);
      }
    }
    forall t | IsNested(pkg, roots, t) ensures t in nested {
      var n, op :| Edge(pkg, n, t) && op != Key && Justified(pkg, roots, n, op);
      assert Flows(pkg, usage, nested, n, op);
    }
  }

  lemma {:induction false} AlongPath(pkg: Package, usage: map<Name, Usage>, nested: set<Name>, p: seq<Name>, op: Op, i: nat)
    requires forall n :: n in usage ==> Closed(pkg, usage, nested, n)
    requires IsPath(pkg, p) && i < |p| && op != Key && p[0] in usage && op in usage[p[0]]
    ensures p[i] in usage && op in usage[p[i]]
  {
    if i > 0 {
      AlongPath(pkg, usage, nested, p, op, i - 1);
      assert Edge(pkg, p[i - 1], p[i - 1 + 1]);
      assert Flows(pkg, usage, nested, p[i - 1], op);
    }
  }
}
