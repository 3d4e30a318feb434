/** The guard's local deny rules, kept sorted and free of duplicates. */
module Overlay {

  /** Byte-wise string order. */
  predicate Le(a: string, b: string) {
    a == "" || (b != "" && (a[0] < b[0] || (a[0] == b[0] && Le(a[1..], b[1..]))))
  }

  lemma {:induction false} LeTotal(a: string, b: string)
    ensures Le(a, b) || Le(b, a)
    ensures Le(a, b) && Le(b, a) ==> a == b
  {
    if a != "" && b != "" {
      LeTotal(a[1..], b[1..]);
      assert a == [a[0]] + a[1..] && b == [b[0]] + b[1..];
    }
  }

  lemma {:induction false} LeTransitive(a: string, b: string, c: string)
    requires Le(a, b) && Le(b, c)
    ensures Le(a, c)
  {
    if a != "" && a[0] == b[0] == c[0] {
      LeTransitive(a[1..], b[1..], c[1..]);
    }
  }

  function Elements(s: seq<string>): set<string> {
    set x | x in s
  }

  /** Sorted, without duplicates, and without the empty rule. */
  predicate Normal(s: seq<string>) {
    "" !in s && forall i, j | 0 <= i < j < |s| :: Le(s[i], s[j]) && s[i] != s[j]
  }

  /** A normal list is determined by its elements. */
  lemma {:induction false} NormalIsUnique(a: seq<string>, b: seq<string>)
    requires Normal(a) && Normal(b) && Elements(a) == Elements(b)
    ensures a == b
    decreases |a|
  {
    assert (a != [] ==> a[0] in Elements(a)) && (b != [] ==> b[0] in Elements(b));
    if a != [] && b != [] {
      assert a[0] in Elements(b) && b[0] in Elements(a);
      LeTotal(a[0], b[0]);
      assert a[0] == b[0];
      forall x ensures x in Elements(a[1..]) <==> x in Elements(b[1..]) {
        assert x in Elements(a) <==> x in Elements(b);
        assert x in a <==> x == a[0] || x in a[1..];
        assert x in b <==> x == b[0] || x in b[1..];
      }
      NormalIsUnique(a[1..], b[1..]);
      assert a == [a[0]] + a[1..] && b == [b[0]] + b[1..];
    }
  }

  method Insert(s: seq<string>, x: string) returns (r: seq<string>)
    requires Normal(s) && x !in s && x != ""
    ensures Normal(r) && Elements(r) == Elements(s) + {x}
  {
    var i := 0;
    while i < |s| && Le(s[i], x)
      invariant 0 <= i <= |s|
      invariant forall k | 0 <= k < i :: Le(s[k], x)
    {
      i := i + 1;
    }
    r := s[..i] + [x] + s[i..];
    forall k | i <= k < |s| ensures Le(x, s[k]) {
      LeTotal(x, s[i]);
      if k > i {
        LeTransitive(x, s[i], s[k]);
      }
    }
    assert forall k | 0 <= k < |r| :: r[k] == if k < i then s[k] else if k == i then x else s[k - 1];
    assert Elements(r) == Elements(s) + {x} by {
      assert forall y :: y in r <==> y in s[..i] || y == x || y in s[i..];
      assert s == s[..i] + s[i..];
    }
  }

  method DedupSort(input: seq<string>) returns (out: seq<string>)
    ensures Normal(out) && Elements(out) == Elements(input) - {""}
  {
    out := [];
    for i := 0 to |input|
      invariant Normal(out) && Elements(out) == Elements(input[..i]) - {""}
    {
      assert Elements(input[..i + 1]) == Elements(input[..i]) + {input[i]};
      if input[i] != "" && input[i] !in out {
        out := Insert(out, input[i]);
      }
    }
    assert input[..|input|] == input;
  }

  method Without(rules: seq<string>, drop: seq<string>) returns (out: seq<string>)
    ensures Elements(out) == Elements(rules) - Elements(drop)
  {
    out := [];
    for i := 0 to |rules|
      invariant Elements(out) == Elements(rules[..i]) - Elements(drop)
    {
      assert Elements(rules[..i + 1]) == Elements(rules[..i]) + {rules[i]};
      if rules[i] !in drop {
        assert Elements(out + [rules[i]]) == Elements(out) + {rules[i]};
        out := out + [rules[i]];
      }
    }
    assert rules[..|rules|] == rules;
  }

  datatype Rules = Rules(paths: seq<string>, cmds: seq<string>, hosts: seq<string>, tools: seq<string>) {
    predicate IsNormal() {
      Normal(paths) && Normal(cmds) && Normal(hosts) && Normal(tools)
    }

    predicate HasEmptyRule() {
      "" in paths || "" in cmds || "" in hosts || "" in tools
    }
  }

  /** Every rule of the first is a rule of the second. */
  predicate Within(a: Rules, b: Rules) {
    && Elements(a.paths) <= Elements(b.paths) && Elements(a.cmds) <= Elements(b.cmds)
    && Elements(a.hosts) <= Elements(b.hosts) && Elements(a.tools) <= Elements(b.tools)
  }

  predicate IsUnion(r: Rules, a: Rules, b: Rules) {
    && Elements(r.paths) == Elements(a.paths) + Elements(b.paths) - {""}
    && Elements(r.cmds) == Elements(a.cmds) + Elements(b.cmds) - {""}
    && Elements(r.hosts) == Elements(a.hosts) + Elements(b.hosts) - {""}
    && Elements(r.tools) == Elements(a.tools) + Elements(b.tools) - {""}
  }

  predicate IsDifference(r: Rules, a: Rules, b: Rules) {
    && Elements(r.paths) == Elements(a.paths) - Elements(b.paths) - {""}
    && Elements(r.cmds) == Elements(a.cmds) - Elements(b.cmds) - {""}
    && Elements(r.hosts) == Elements(a.hosts) - Elements(b.hosts) - {""}
    && Elements(r.tools) == Elements(a.tools) - Elements(b.tools) - {""}
  }

  class Overlay {
    var denyPaths: seq<string>
    var denyCmds: seq<string>
    var denyHosts: seq<string>
    var denyTools: seq<string>

    function Current(): Rules
      reads this
    {
      Rules(denyPaths, denyCmds, denyHosts, denyTools)
    }

    /** As loaded from a file, which need not be normal. */
    constructor (r: Rules)
      ensures Current() == r
    {
      denyPaths, denyCmds, denyHosts, denyTools := r.paths, r.cmds, r.hosts, r.tools;
    }

    method Normalize()
      modifies this
      ensures Current().IsNormal() && IsUnion(Current(), old(Current()), Rules([], [], [], []))
    {
      denyPaths := DedupSort(denyPaths);
      denyCmds := DedupSort(denyCmds);
      denyHosts := DedupSort(denyHosts);
      denyTools := DedupSort(denyTools);
    }

    method Add(r: Rules)
      modifies this
      ensures Current().IsNormal() && IsUnion(Current(), old(Current()), r)
    {
      assert forall a: seq<string>, b: seq<string> :: Elements(a + b) == Elements(a) + Elements(b);
      denyPaths := denyPaths + r.paths;
      denyCmds := denyCmds + r.cmds;
      denyHosts := denyHosts + r.hosts;
      denyTools := denyTools + r.tools;
      Normalize();
    }

    method Remove(r: Rules)
      modifies this
      ensures Current().IsNormal() && IsDifference(Current(), old(Current()), r)
    {
      denyPaths := Without(denyPaths, r.paths);
      denyCmds := Without(denyCmds, r.cmds);
      denyHosts := Without(denyHosts, r.hosts);
      denyTools := Without(denyTools, r.tools);
      Normalize();
    }
  }

  /** Adding rules keeps every rule already there, exactly when none of those was empty. */
  lemma AddKeepsRules(before: Rules, added: Rules, after: Rules)
    requires IsUnion(after, before, added)
    ensures Within(before, after) <==> !before.HasEmptyRule()
  {
    assert forall l <- [before.paths, before.cmds, before.hosts, before.tools] :: "" in l <==> "" in Elements(l);
  }

  /** Removing what was just added restores a normal overlay that held none of it, list for list. */
  lemma RemoveUndoesAdd(before: Rules, added: Rules, after: Rules, restored: Rules)
    requires before.IsNormal() && restored.IsNormal()
    requires IsUnion(after, before, added) && IsDifference(restored, after, added)
    requires
      && Elements(before.paths) !! Elements(added.paths) && Elements(before.cmds) !! Elements(added.cmds)
      && Elements(before.hosts) !! Elements(added.hosts) && Elements(before.tools) !! Elements(added.tools)
    ensures restored == before
  {
    NormalIsUnique(restored.paths, before.paths);
    NormalIsUnique(restored.cmds, before.cmds);
    NormalIsUnique(restored.hosts, before.hosts);
    NormalIsUnique(restored.tools, before.tools);
  }
}
