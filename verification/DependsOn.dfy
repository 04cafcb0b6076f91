/**
 * Which keys a dependon condition hides. The walk over the parent chains keeps a set of the
 * keys on its own path only, and is proved to decide full reachability of a failing
 * condition, on cyclic parent maps too.
 */
module DependsOn {
  import opened ByteStrings

  type Key = string

  /** One condition on a parent key; its operator and choices matter only to whether it fails. */
  datatype Dependency = Dependency(key: Key, op: string, values: seq<bytes>)

  type Parents = map<Key, seq<Dependency>>

  predicate FailsAt(parents: Parents, fails: Dependency -> bool, key: Key) {
    key in parents && exists c :: c in parents[key] && fails(c)
  }

  predicate Step(parents: Parents, a: Key, b: Key) {
    a in parents && exists c :: c in parents[a] && c.key == b
  }

  predicate IsWalk(parents: Parents, p: seq<Key>) {
    p != [] && forall i {:trigger p[i]} :: 0 <= i < |p| - 1 ==> Step(parents, p[i], p[i + 1])
  }

  /** A walk from key to a key with a failing condition that meets nothing in avoid. */
  predicate Leads(parents: Parents, fails: Dependency -> bool, p: seq<Key>, key: Key, avoid: set<Key>) {
    && IsWalk(parents, p)
    && p[0] == key
    && FailsAt(parents, fails, p[|p| - 1])
    && forall i :: 0 <= i < |p| ==> p[i] !in avoid
  }

  ghost predicate Hidden(parents: Parents, fails: Dependency -> bool, key: Key, avoid: set<Key>) {
    exists p :: Leads(parents, fails, p, key, avoid)
  }

  lemma HiddenHere(parents: Parents, fails: Dependency -> bool, key: Key, avoid: set<Key>)
    requires FailsAt(parents, fails, key) && key !in avoid
    ensures Hidden(parents, fails, key, avoid)
  {
    assert Leads(parents, fails, [key], key, avoid);
  }

  lemma HiddenThrough(parents: Parents, fails: Dependency -> bool, key: Key, parent: Key, avoid: set<Key>)
    requires Step(parents, key, parent) && key !in avoid && Hidden(parents, fails, parent, avoid + {key})
    ensures Hidden(parents, fails, key, avoid)
  {
    var p :| Leads(parents, fails, p, parent, avoid + {key});
    var q := [key] + p;
    forall i | 0 <= i < |q| - 1 ensures Step(parents, q[i], q[i + 1]) {
      if i > 0 {
        assert Step(parents, p[i - 1], p[i]);
      }
    }
    forall i | 0 <= i < |q| ensures q[i] !in avoid {
      if i > 0 {
        assert p[i - 1] !in avoid + {key};
      }
    }
    assert Leads(parents, fails, q, key, avoid);
  }

  lemma {:induction false} LastIndex(p: seq<Key>, key: Key) returns (i: nat)
    requires key in p
    ensures i < |p| && p[i] == key && forall j :: i < j < |p| ==> p[j] != key
  {
    i := |p| - 1;
    if p[i] != key {
      i := LastIndex(p[..|p| - 1], key);
    }
  }

  /** Cutting a walk at the last time it meets its start leaves the start behind for good. */
  lemma HiddenCut(parents: Parents, fails: Dependency -> bool, key: Key, avoid: set<Key>) returns (parent: Key)
    requires Hidden(parents, fails, key, avoid) && !FailsAt(parents, fails, key)
    ensures Step(parents, key, parent) && Hidden(parents, fails, parent, avoid + {key})
  {
    var p :| Leads(parents, fails, p, key, avoid);
    var last := LastIndex(p, key);
    assert last + 1 < |p|;
    parent := p[last + 1];
    var q := p[last + 1..];
    assert Step(parents, p[last], p[last + 1]);
    forall i | 0 <= i < |q| - 1 ensures Step(parents, q[i], q[i + 1]) {
      assert Step(parents, p[last + 1 + i], p[last + 1 + i + 1]);
    }
    assert Leads(parents, fails, q, parent, avoid + {key});
  }

  /** The walk over the parent chains, its path kept in place. */
  class Walk {
    const parents: Parents
    const fails: Dependency -> bool
    var visiting: set<Key>

    constructor (parents: Parents, fails: Dependency -> bool)
      ensures this.parents == parents && this.fails == fails && visiting == {}
    {
      this.parents, this.fails := parents, fails;
      visiting := {};
    }

    /** True exactly when some walk off the current path leads from key to a failing condition. */
    method DependencyHidden(key: Key) returns (r: bool)
      modifies this
      ensures visiting == old(visiting)
      ensures r <==> Hidden(parents, fails, key, old(visiting))
      decreases parents.Keys - visiting
    {
      hide Hidden, FailsAt, Step;
      if key !in parents || key in visiting {
        NoWalk(parents, fails, key, visiting);
        return false;
      }
      var conditions := parents[key];
      visiting := visiting + {key};
      for i := 0 to |conditions|
        invariant visiting == old(visiting) + {key}
        invariant forall j :: 0 <= j < i ==> !fails(conditions[j]) && !Hidden(parents, fails, conditions[j].key, visiting)
      {
        if fails(conditions[i]) {
          FailsHere(parents, fails, key, i);
          HiddenHere(parents, fails, key, old(visiting));
          visiting := visiting - {key};
          return true;
        }
        var parent := DependencyHidden(conditions[i].key);
        if parent {
          StepTo(parents, key, i);
          HiddenThrough(parents, fails, key, conditions[i].key, old(visiting));
          visiting := visiting - {key};
          return true;
        }
      }
      AllClear(parents, fails, key, old(visiting));
      visiting := visiting - {key};
      return false;
    }

    /** The keys with conditions that are hidden, as one fresh walk from each decides. */
    method HiddenKeys(keys: seq<Key>) returns (hidden: set<Key>)
      requires visiting == {} && forall k :: k in keys <==> k in parents
      modifies this
      ensures visiting == {}
      ensures forall k :: k in hidden <==> Hidden(parents, fails, k, {})
    {
      hidden := {};
      for i := 0 to |keys|
        invariant visiting == {}
        invariant forall k :: k in hidden <==> k in keys[..i] && Hidden(parents, fails, k, {})
      {
        var r := DependencyHidden(keys[i]);
        if r {
          hidden := hidden + {keys[i]};
        }
        assert keys[..i + 1] == keys[..i] + [keys[i]];
      }
      assert keys[..|keys|] == keys;
      forall k | k !in parents ensures !Hidden(parents, fails, k, {}) {
        NoWalk(parents, fails, k, {});
      }
    }
  }

  lemma NoWalk(parents: Parents, fails: Dependency -> bool, key: Key, avoid: set<Key>)
    requires key !in parents || key in avoid
    ensures !Hidden(parents, fails, key, avoid)
  {
    if p :| Leads(parents, fails, p, key, avoid) {
      WalkStarts(parents, fails, p, key, avoid);
    }
  }

  lemma WalkStarts(parents: Parents, fails: Dependency -> bool, p: seq<Key>, key: Key, avoid: set<Key>)
    requires Leads(parents, fails, p, key, avoid)
    ensures key in parents && key !in avoid
  {
    if |p| > 1 {
      assert Step(parents, p[0], p[0 + 1]);
    }
  }

  lemma FailsHere(parents: Parents, fails: Dependency -> bool, key: Key, i: nat)
    requires key in parents && i < |parents[key]| && fails(parents[key][i])
    ensures FailsAt(parents, fails, key)
  {
  }

  lemma StepTo(parents: Parents, key: Key, i: nat)
    requires key in parents && i < |parents[key]|
    ensures Step(parents, key, parents[key][i].key)
  {
  }

  lemma AllClear(parents: Parents, fails: Dependency -> bool, key: Key, avoid: set<Key>)
    requires key in parents
    requires forall j :: 0 <= j < |parents[key]| ==>
               !fails(parents[key][j]) && !Hidden(parents, fails, parents[key][j].key, avoid + {key})
    ensures !Hidden(parents, fails, key, avoid)
  {
    if Hidden(parents, fails, key, avoid) {
      var parent := HiddenCut(parents, fails, key, avoid);
    }
  }

  /** The rule as it is stated: one failed condition or one hidden parent hides the key, and nothing else does. */
  lemma HiddenRule(parents: Parents, fails: Dependency -> bool, key: Key)
    ensures Hidden(parents, fails, key, {}) <==>
            key in parents && exists c :: c in parents[key] && (fails(c) || Hidden(parents, fails, c.key, {}))
  {
    if Hidden(parents, fails, key, {}) {
      if key !in parents {
        NoWalk(parents, fails, key, {});
      }
      if !FailsAt(parents, fails, key) {
        var parent := HiddenCut(parents, fails, key, {});
        HiddenWider(parents, fails, parent, {} + {key});
        var c :| c in parents[key] && c.key == parent;
      }
    } else if key in parents {
      forall c | c in parents[key] ensures !fails(c) && !Hidden(parents, fails, c.key, {}) {
        if fails(c) {
          HiddenHere(parents, fails, key, {});
        } else if p :| Leads(parents, fails, p, c.key, {}) {
          var q := [key] + p;
          forall i | 0 <= i < |q| - 1 ensures Step(parents, q[i], q[i + 1]) {
            if i > 0 {
              assert Step(parents, p[i - 1], p[i]);
            }
          }
          assert Leads(parents, fails, q, key, {});
        }
      }
    }
  }

  lemma HiddenWider(parents: Parents, fails: Dependency -> bool, key: Key, avoid: set<Key>)
    requires Hidden(parents, fails, key, avoid)
    ensures Hidden(parents, fails, key, {})
  {
    var p :| Leads(parents, fails, p, key, avoid);
    assert Leads(parents, fails, p, key, {});
  }
}
