/** The command-line surface: the walk of the command tree into verbs, and the join with the route table. */
module Surface {
  import opened Prelude
  import opened Text

  datatype Command = Command(name: string, hidden: bool, subs: seq<Command>)

  /** Hidden subcommands and the generated `help` are not part of the surface. */
  predicate IsShown(c: Command) {
    !c.hidden && c.name != "help"
  }

  predicate HasShown(c: Command) {
    exists i | 0 <= i < |c.subs| :: IsShown(c.subs[i])
  }

  /** The verb of a child, given the verb of its parent. */
  function Extend(prefix: string, name: string): string {
    if prefix == "" then name else prefix + " " + name
  }

  // ---------------------------------------------------------------- the walk

  /** What `collect` pushes for one node. */
  function Leaves(c: Command, prefix: string): seq<string>
    decreases c, |c.subs| + 1
  {
    if !HasShown(c) then (if prefix == "" then [] else [prefix]) else LeavesFrom(c, 0, prefix)
  }

  /** What `collect` pushes for the children from `i` on. */
  function LeavesFrom(c: Command, i: nat, prefix: string): seq<string>
    requires i <= |c.subs|
    decreases c, |c.subs| - i
  {
    if i == |c.subs| then []
    else
      (if IsShown(c.subs[i]) then Leaves(c.subs[i], Extend(prefix, c.subs[i].name)) else [])
      + LeavesFrom(c, i + 1, prefix)
  }

  /** `collect`, with the output vector passed along. */
  method Collect(c: Command, prefix: string, out: seq<string>) returns (r: seq<string>)
    ensures r == out + Leaves(c, prefix)
    decreases c
  {
    r := out;
    if !HasShown(c) {
      if prefix != "" {
        r := r + [prefix];
      }
      return;
    }
    for i := 0 to |c.subs|
      invariant r + LeavesFrom(c, i, prefix) == out + LeavesFrom(c, 0, prefix)
    {
      if IsShown(c.subs[i]) {
        r := Collect(c.subs[i], Extend(prefix, c.subs[i].name), r);
      }
    }
  }

  // ---------------------------------------------------------------- reference: leaf paths

  /** A path of child indices is a leaf path when no node on it is hidden or called `help`, and every child of the last
      node is. */
  predicate IsLeafPath(c: Command, p: seq<nat>) {
    && p != [] && p[0] < |c.subs| && !c.subs[p[0]].hidden && c.subs[p[0]].name != "help"
    && if |p| == 1 then OnlySkipped(c.subs[p[0]].subs) else IsLeafPath(c.subs[p[0]], p[1..])
  }

  predicate OnlySkipped(subs: seq<Command>) {
    forall i | 0 <= i < |subs| :: subs[i].hidden || subs[i].name == "help"
  }

  /** The names along a leaf path. */
  function Names(c: Command, p: seq<nat>): (names: seq<string>)
    requires IsLeafPath(c, p)
    ensures |names| == |p|
  {
    [c.subs[p[0]].name] + if |p| == 1 then [] else Names(c.subs[p[0]], p[1..])
  }

  function Prepend(i: nat, ps: seq<seq<nat>>): seq<seq<nat>> {
    seq(|ps|, k requires 0 <= k < |ps| => [i] + ps[k])
  }

  /** The leaf paths through child `i`. */
  function PathsThrough(c: Command, i: nat): seq<seq<nat>>
    requires i < |c.subs|
    decreases c, 0, 1
  {
    if !IsShown(c.subs[i]) then []
    else if HasShown(c.subs[i]) then Prepend(i, PathsFrom(c.subs[i], 0))
    else [[i]]
  }

  /** The leaf paths through the children from `i` on, in tree order. */
  function PathsFrom(c: Command, i: nat): seq<seq<nat>>
    requires i <= |c.subs|
    decreases c, |c.subs| - i, 2
  {
    if i == |c.subs| then [] else PathsThrough(c, i) + PathsFrom(c, i + 1)
  }

  lemma PrependMember(i: nat, ps: seq<seq<nat>>, p: seq<nat>)
    ensures p in Prepend(i, ps) <==> p != [] && p[0] == i && p[1..] in ps
  {
    if p in Prepend(i, ps) {
      var k :| 0 <= k < |ps| && Prepend(i, ps)[k] == p;
      assert p[1..] == ps[k];
    }
    if p != [] && p[0] == i && p[1..] in ps {
      var k :| 0 <= k < |ps| && ps[k] == p[1..];
      assert Prepend(i, ps)[k] == [i] + p[1..] == p;
    }
  }

  /** The enumeration is exact: it lists the leaf paths and nothing else. */
  lemma {:induction false} PathsExact(c: Command, i: nat, p: seq<nat>)
    requires i <= |c.subs|
    ensures p in PathsFrom(c, i) <==> IsLeafPath(c, p) && p[0] >= i
    decreases c, |c.subs| - i
  {
    if i < |c.subs| {
      PathsExact(c, i + 1, p);
      var child := c.subs[i];
      if IsShown(child) && p != [] && p[0] == i {
        PathsExact(child, 0, p[1..]);
      }
      if IsShown(child) {
        PrependMember(i, PathsFrom(child, 0), p);
      }
      assert p in PathsThrough(c, i) <==> IsLeafPath(c, p) && p[0] == i by {
        if p != [] && p[0] == i && |p| == 1 {
          assert p == [i];
        }
      }
    }
  }

  lemma NoRepeatsAppend<T(!new)>(a: seq<T>, b: seq<T>)
    requires NoRepeats(a) && NoRepeats(b)
    requires forall x | x in a :: x !in b
    ensures NoRepeats(a + b)
  {
    var s := a + b;
    forall i, j | 0 <= i < j < |s|
      ensures s[i] != s[j]
    {
      if i < |a| <= j {
        assert s[i] in a && s[j] in b;
      }
    }
  }

  lemma PrependNoRepeats(i: nat, ps: seq<seq<nat>>)
    requires NoRepeats(ps)
    ensures NoRepeats(Prepend(i, ps))
  {
    forall j, k | 0 <= j < k < |ps|
      ensures Prepend(i, ps)[j] != Prepend(i, ps)[k]
    {
      assert ([i] + ps[j])[1..] == ps[j] && ([i] + ps[k])[1..] == ps[k];
    }
  }

  /** The enumeration lists every leaf path once. */
  lemma {:induction false} PathsNoRepeats(c: Command, i: nat)
    requires i <= |c.subs|
    ensures NoRepeats(PathsFrom(c, i))
    decreases c, |c.subs| - i
  {
    if i < |c.subs| {
      PathsNoRepeats(c, i + 1);
      var child := c.subs[i];
      if IsShown(child) && HasShown(child) {
        PathsNoRepeats(child, 0);
        PrependNoRepeats(i, PathsFrom(child, 0));
      }
      forall p | p in PathsThrough(c, i)
        ensures p !in PathsFrom(c, i + 1)
      {
        PathsExact(c, i + 1, p);
        if IsShown(child) && HasShown(child) {
          PrependMember(i, PathsFrom(child, 0), p);
        }
      }
      NoRepeatsAppend(PathsThrough(c, i), PathsFrom(c, i + 1));
    }
  }

  /** A node with a shown child has a leaf path. */
  lemma {:induction false} PathsExist(c: Command)
    requires HasShown(c)
    ensures PathsFrom(c, 0) != []
    decreases c
  {
    var i :| 0 <= i < |c.subs| && IsShown(c.subs[i]);
    var child := c.subs[i];
    var p: seq<nat>;
    if HasShown(child) {
      PathsExist(child);
      var q := PathsFrom(child, 0)[0];
      PathsExact(child, 0, q);
      p := [i] + q;
      assert p[1..] == q;
    } else {
      p := [i];
    }
    assert IsLeafPath(c, p);
    PathsExact(c, 0, p);
  }

  // ---------------------------------------------------------------- the walk is exact

  /** The verb a leaf path stands for: its names joined by spaces, below `prefix`. */
  function VerbOf(c: Command, prefix: string, p: seq<nat>): string
    requires IsLeafPath(c, p)
  {
    Extend(prefix, Join(Names(c, p), ' '))
  }

  /** The verbs of a list of leaf paths. */
  function VerbsOf(c: Command, prefix: string, ps: seq<seq<nat>>): seq<string>
    requires forall p | p in ps :: IsLeafPath(c, p)
  {
    seq(|ps|, k requires 0 <= k < |ps| => VerbOf(c, prefix, ps[k]))
  }

  lemma AllLeafPaths(c: Command, i: nat)
    requires i <= |c.subs|
    ensures forall p | p in PathsFrom(c, i) :: IsLeafPath(c, p)
    ensures i < |c.subs| ==> forall p | p in PathsThrough(c, i) :: IsLeafPath(c, p)
  {
    forall p | p in PathsFrom(c, i)
      ensures IsLeafPath(c, p)
    {
      PathsExact(c, i, p);
    }
    if i < |c.subs| {
      forall p | p in PathsThrough(c, i)
        ensures IsLeafPath(c, p)
      {
        assert p in PathsFrom(c, i);
      }
    }
  }

  lemma VerbsOfAppend(c: Command, prefix: string, a: seq<seq<nat>>, b: seq<seq<nat>>)
    requires forall p | p in a + b :: IsLeafPath(c, p)
    ensures (forall p | p in a :: IsLeafPath(c, p)) && forall p | p in b :: IsLeafPath(c, p)
    ensures VerbsOf(c, prefix, a + b) == VerbsOf(c, prefix, a) + VerbsOf(c, prefix, b)
  {
    assert forall p | p in a :: p in a + b;
    assert forall p | p in b :: p in a + b;
  }

  /** Every verb of the tree: the reference the walk is compared with. */
  function ExpectedVerbs(c: Command): seq<string> {
    AllLeafPaths(c, 0);
    VerbsOf(c, "", PathsFrom(c, 0))
  }

  predicate TopNamesNonEmpty(c: Command) {
    forall i | 0 <= i < |c.subs| :: c.subs[i].hidden || c.subs[i].name != ""
  }

  /** Going down one level moves a name from the path to the prefix. */
  lemma VerbThrough(c: Command, prefix: string, i: nat, q: seq<nat>)
    requires i < |c.subs| && IsShown(c.subs[i]) && IsLeafPath(c.subs[i], q)
    requires prefix != "" || c.subs[i].name != ""
    ensures IsLeafPath(c, [i] + q)
    ensures VerbOf(c, prefix, [i] + q) == VerbOf(c.subs[i], Extend(prefix, c.subs[i].name), q)
  {
    var p := [i] + q;
    assert p[1..] == q;
    var names := Names(c, p);
    assert names == [c.subs[i].name] + Names(c.subs[i], q);
    assert names[1..] == Names(c.subs[i], q);
  }

  lemma LeavesThrough(c: Command, i: nat, prefix: string)
    requires i < |c.subs| && IsShown(c.subs[i])
    requires prefix != "" || c.subs[i].name != ""
    requires forall p | p in PathsFrom(c.subs[i], 0) :: IsLeafPath(c.subs[i], p)
    requires forall p | p in PathsThrough(c, i) :: IsLeafPath(c, p)
    requires var child, verb := c.subs[i], Extend(prefix, c.subs[i].name);
             HasShown(child) ==> Leaves(child, verb) == VerbsOf(child, verb, PathsFrom(child, 0))
    ensures Leaves(c.subs[i], Extend(prefix, c.subs[i].name)) == VerbsOf(c, prefix, PathsThrough(c, i))
  {
    var child, verb := c.subs[i], Extend(prefix, c.subs[i].name);
    if HasShown(child) {
      var qs := PathsFrom(child, 0);
      forall k | 0 <= k < |qs|
        ensures VerbsOf(c, prefix, PathsThrough(c, i))[k] == VerbOf(child, verb, qs[k])
      {
        VerbThrough(c, prefix, i, qs[k]);
      }
    } else {
      assert Names(c, [i]) == [child.name];
    }
  }

  /** The walk pushes the verbs of the leaf paths, in tree order and with multiplicity. */
  lemma {:induction false} LeavesExact(c: Command, i: nat, prefix: string)
    requires i <= |c.subs|
    requires prefix != "" || TopNamesNonEmpty(c)
    ensures forall p | p in PathsFrom(c, i) :: IsLeafPath(c, p)
    ensures LeavesFrom(c, i, prefix) == VerbsOf(c, prefix, PathsFrom(c, i))
    decreases c, |c.subs| - i
  {
    AllLeafPaths(c, i);
    if i < |c.subs| {
      var rest := PathsFrom(c, i + 1);
      LeavesExact(c, i + 1, prefix);
      if IsShown(c.subs[i]) {
        var child := c.subs[i];
        LeavesExact(child, 0, Extend(prefix, child.name));
        LeavesThrough(c, i, prefix);
      }
      VerbsOfAppend(c, prefix, PathsThrough(c, i), rest);
    }
  }

  // ---------------------------------------------------------------- and exact only then

  /** The total length of a list of verbs, counting one more per verb. */
  function Weight(verbs: seq<string>): nat {
    if verbs == [] then 0 else |verbs[0]| + 1 + Weight(verbs[1..])
  }

  lemma {:induction false} WeightAppend(a: seq<string>, b: seq<string>)
    ensures Weight(a + b) == Weight(a) + Weight(b)
  {
    if a == [] {
      assert a + b == b;
    } else {
      assert (a + b)[1..] == a[1..] + b;
      WeightAppend(a[1..], b);
    }
  }

  /** Taking one verb out. */
  lemma WeightWithout(b: seq<string>, k: nat)
    requires k < |b|
    ensures Weight(b) == Weight(b[..k] + b[k+1..]) + |b[k]| + 1
    ensures multiset(b[..k] + b[k+1..]) == multiset(b) - multiset{b[k]}
  {
    var left, x, right := b[..k], [b[k]], b[k+1..];
    assert b == left + (x + right);
    WeightAppend(left, x + right);
    WeightAppend(x, right);
    WeightAppend(left, right);
    assert x[1..] == [];
  }

  /** Taking the first verb of one permutation out of the other. */
  lemma MatchFirst(a: seq<string>, b: seq<string>) returns (rest: seq<string>)
    requires a != [] && multiset(a) == multiset(b)
    ensures multiset(a[1..]) == multiset(rest)
    ensures Weight(b) == Weight(rest) + |a[0]| + 1
  {
    assert a[0] in multiset(b);
    var k :| 0 <= k < |b| && b[k] == a[0];
    rest := b[..k] + b[k+1..];
    WeightWithout(b, k);
    assert a == [a[0]] + a[1..];
  }

  /** Permutations weigh the same. */
  lemma {:induction false} WeightOfPermutation(a: seq<string>, b: seq<string>)
    requires multiset(a) == multiset(b)
    ensures Weight(a) == Weight(b)
    decreases |a|
  {
    if a == [] {
      assert |b| == |multiset(b)| == 0;
    } else {
      var rest := MatchFirst(a, b);
      WeightOfPermutation(a[1..], rest);
    }
  }

  lemma PrependedLeafPaths(c: Command, i: nat, qs: seq<seq<nat>>)
    requires i < |c.subs| && IsShown(c.subs[i])
    requires forall q | q in qs :: IsLeafPath(c.subs[i], q)
    ensures forall p | p in Prepend(i, qs) :: IsLeafPath(c, p)
  {
    forall p | p in Prepend(i, qs)
      ensures IsLeafPath(c, p)
    {
      PrependMember(i, qs, p);
    }
  }

  lemma WeightOfFirst(c: Command, ps: seq<seq<nat>>)
    requires ps != [] && forall p | p in ps :: IsLeafPath(c, p)
    ensures Weight(VerbsOf(c, "", ps)) == |VerbOf(c, "", ps[0])| + 1 + Weight(VerbsOf(c, "", ps[1..]))
  {
    assert VerbsOf(c, "", ps)[1..] == VerbsOf(c, "", ps[1..]);
  }

  /** An empty name in front puts one more space in front of every verb. */
  lemma {:induction false} WeightThroughEmptyName(c: Command, i: nat, qs: seq<seq<nat>>)
    requires i < |c.subs| && IsShown(c.subs[i]) && c.subs[i].name == ""
    requires forall q | q in qs :: IsLeafPath(c.subs[i], q)
    ensures forall p | p in Prepend(i, qs) :: IsLeafPath(c, p)
    ensures Weight(VerbsOf(c, "", Prepend(i, qs))) == Weight(VerbsOf(c.subs[i], "", qs)) + |qs|
    decreases |qs|
  {
    PrependedLeafPaths(c, i, qs);
    if qs != [] {
      EmptyNameLengthens(c, i, qs[0]);
      WeightThroughEmptyName(c, i, qs[1..]);
      WeightOfFirst(c.subs[i], qs);
      WeightOfFirst(c, Prepend(i, qs));
      assert Prepend(i, qs)[0] == [i] + qs[0] && Prepend(i, qs)[1..] == Prepend(i, qs[1..]);
    }
  }

  lemma EmptyNameLengthens(c: Command, i: nat, q: seq<nat>)
    requires i < |c.subs| && IsShown(c.subs[i]) && c.subs[i].name == "" && IsLeafPath(c.subs[i], q)
    ensures IsLeafPath(c, [i] + q)
    ensures |VerbOf(c, "", [i] + q)| == |VerbOf(c.subs[i], "", q)| + 1
  {
    assert ([i] + q)[1..] == q;
    var names := Names(c, [i] + q);
    assert names == [""] + Names(c.subs[i], q);
    assert names[1..] == Names(c.subs[i], q);
  }

  ghost predicate EmptyNameFrom(c: Command, i: nat) {
    exists j | i <= j < |c.subs| :: IsShown(c.subs[j]) && c.subs[j].name == ""
  }

  /** What the walk pushes at the top for child `i`. */
  function LeavesAt(c: Command, i: nat): seq<string>
    requires i < |c.subs|
  {
    if IsShown(c.subs[i]) then Leaves(c.subs[i], c.subs[i].name) else []
  }

  /** What the verbs of the leaf paths from child `i` on weigh. */
  function ReferenceWeight(c: Command, i: nat): nat
    requires i <= |c.subs|
  {
    AllLeafPaths(c, i);
    Weight(VerbsOf(c, "", PathsFrom(c, i)))
  }

  /** What the verbs of the leaf paths through child `i` weigh. */
  function ReferenceWeightAt(c: Command, i: nat): nat
    requires i < |c.subs|
  {
    AllLeafPaths(c, i);
    Weight(VerbsOf(c, "", PathsThrough(c, i)))
  }

  /** Walk and reference both weigh as much as their first child and the rest together. */
  lemma WeighChildren(c: Command, i: nat)
    requires i < |c.subs|
    ensures Weight(LeavesFrom(c, i, "")) == Weight(LeavesAt(c, i)) + Weight(LeavesFrom(c, i + 1, ""))
    ensures ReferenceWeight(c, i) == ReferenceWeightAt(c, i) + ReferenceWeight(c, i + 1)
  {
    AllLeafPaths(c, i);
    AllLeafPaths(c, i + 1);
    VerbsOfAppend(c, "", PathsThrough(c, i), PathsFrom(c, i + 1));
    WeightAppend(VerbsOf(c, "", PathsThrough(c, i)), VerbsOf(c, "", PathsFrom(c, i + 1)));
    assert LeavesFrom(c, i, "") == LeavesAt(c, i) + LeavesFrom(c, i + 1, "");
    WeightAppend(LeavesAt(c, i), LeavesFrom(c, i + 1, ""));
  }

  /** At the top, the walk never weighs more than the reference, and less as soon as a shown name is empty. */
  lemma {:induction false} WalkWeighsLess(c: Command, i: nat)
    requires i <= |c.subs|
    ensures Weight(LeavesFrom(c, i, "")) <= ReferenceWeight(c, i)
    ensures EmptyNameFrom(c, i) ==> Weight(LeavesFrom(c, i, "")) < ReferenceWeight(c, i)
    decreases c, |c.subs| - i
  {
    if i < |c.subs| {
      WeighChildren(c, i);
      WeightHere(c, i);
      WalkWeighsLess(c, i + 1);
      if EmptyNameFrom(c, i) && !EmptyNameFrom(c, i + 1) {
        var j :| i <= j < |c.subs| && IsShown(c.subs[j]) && c.subs[j].name == "";
        assert j == i;
      }
    }
  }

  lemma {:induction false} WeightHere(c: Command, i: nat)
    requires i < |c.subs|
    ensures Weight(LeavesAt(c, i)) <= ReferenceWeightAt(c, i)
    ensures IsShown(c.subs[i]) && c.subs[i].name == "" ==> Weight(LeavesAt(c, i)) < ReferenceWeightAt(c, i)
    decreases c, 0, 1
  {
    AllLeafPaths(c, i);
    if IsShown(c.subs[i]) {
      if c.subs[i].name != "" {
        LeavesExact(c.subs[i], 0, c.subs[i].name);
        LeavesThrough(c, i, "");
      } else {
        EmptyNameWeighsLess(c, i);
      }
    }
  }

  lemma {:induction false} EmptyNameWeighsLess(c: Command, i: nat)
    requires i < |c.subs| && IsShown(c.subs[i]) && c.subs[i].name == ""
    ensures Weight(Leaves(c.subs[i], "")) < ReferenceWeightAt(c, i)
    decreases c, 0, 0
  {
    AllLeafPaths(c, i);
    var child := c.subs[i];
    if HasShown(child) {
      AllLeafPaths(child, 0);
      WalkWeighsLess(child, 0);
      PathsExist(child);
      WeightThroughEmptyName(c, i, PathsFrom(child, 0));
    } else {
      assert VerbsOf(c, "", [[i]]) == [VerbOf(c, "", [i])];
    }
  }

  /** The walk yields exactly the verbs of the leaf paths, with multiplicity, if and only if no shown
      top-level command has an empty name. */
  lemma WalkExactIff(c: Command)
    ensures multiset(Leaves(c, "")) == multiset(ExpectedVerbs(c)) <==> TopNamesNonEmpty(c)
    ensures TopNamesNonEmpty(c) ==> Leaves(c, "") == ExpectedVerbs(c)
  {
    assert Leaves(c, "") == LeavesFrom(c, 0, "") by {
      if !HasShown(c) {
        LeavesOfHidden(c, 0, "");
      }
    }
    if TopNamesNonEmpty(c) {
      LeavesExact(c, 0, "");
    } else {
      WalkWeighsLess(c, 0);
      assert EmptyNameFrom(c, 0);
      if multiset(Leaves(c, "")) == multiset(ExpectedVerbs(c)) {
        WeightOfPermutation(Leaves(c, ""), ExpectedVerbs(c));
      }
    }
  }

  lemma {:induction false} LeavesOfHidden(c: Command, i: nat, prefix: string)
    requires i <= |c.subs| && !HasShown(c)
    ensures LeavesFrom(c, i, prefix) == []
    decreases |c.subs| - i
  {
    if i < |c.subs| {
      LeavesOfHidden(c, i + 1, prefix);
    }
  }

  // ---------------------------------------------------------------- sorting

  /** Lexicographic order by character, the order of Rust strings. */
  predicate Leq(a: string, b: string) {
    a == "" || (b != "" && (a[0] < b[0] || (a[0] == b[0] && Leq(a[1..], b[1..]))))
  }

  lemma {:induction false} LeqTotal(a: string, b: string)
    ensures Leq(a, b) || Leq(b, a)
  {
    if a != "" && b != "" && a[0] == b[0] {
      LeqTotal(a[1..], b[1..]);
    }
  }

  lemma {:induction false} LeqTransitive(a: string, b: string, c: string)
    requires Leq(a, b) && Leq(b, c)
    ensures Leq(a, c)
  {
    if a != "" && a[0] == b[0] == c[0] {
      LeqTransitive(a[1..], b[1..], c[1..]);
    }
  }

  /** `a` and `b` first differ at `k`, and `a` has the smaller character there. */
  predicate IsSmallerAt(a: string, b: string, k: nat) {
    k < |a| && k < |b| && a[..k] == b[..k] && a[k] < b[k]
  }

  predicate IsPrefix(a: string, b: string) {
    |a| <= |b| && b[..|a|] == a
  }

  /** `a` is a prefix of `b`, or has the smaller character where they first differ. */
  ghost predicate IsBefore(a: string, b: string) {
    IsPrefix(a, b) || exists k: nat :: IsSmallerAt(a, b, k)
  }

  lemma SmallerAtTail(a: string, b: string, k: nat)
    requires a != "" && b != "" && a[0] == b[0]
    ensures IsSmallerAt(a, b, k + 1) <==> IsSmallerAt(a[1..], b[1..], k)
    ensures !IsSmallerAt(a, b, 0)
  {
    if k < |a| - 1 && k < |b| - 1 {
      assert a[..k+1] == [a[0]] + a[1..][..k] && b[..k+1] == [b[0]] + b[1..][..k];
      assert a[1..][..k] == a[..k+1][1..] && b[1..][..k] == b[..k+1][1..];
    }
  }

  lemma PrefixTail(a: string, b: string)
    requires a != "" && b != "" && a[0] == b[0]
    ensures IsPrefix(a, b) <==> IsPrefix(a[1..], b[1..])
  {
    if |a| <= |b| {
      assert b[..|a|] == [b[0]] + b[1..][..|a|-1];
      assert a == [a[0]] + a[1..];
      assert b[1..][..|a|-1] == b[..|a|][1..];
    }
  }

  lemma BeforeTail(a: string, b: string)
    requires a != "" && b != "" && a[0] == b[0]
    ensures IsBefore(a, b) <==> IsBefore(a[1..], b[1..])
  {
    PrefixTail(a, b);
    SmallerAtTail(a, b, 0);
    if k: nat :| IsSmallerAt(a, b, k) {
      assert k > 0;
      SmallerAtTail(a, b, k - 1);
      assert IsSmallerAt(a[1..], b[1..], k - 1);
    }
    if k: nat :| IsSmallerAt(a[1..], b[1..], k) {
      SmallerAtTail(a, b, k);
      assert IsSmallerAt(a, b, k + 1);
    }
  }

  /** The recursive comparison is the order of the standard library. */
  lemma {:induction false} LeqIff(a: string, b: string)
    ensures Leq(a, b) <==> IsBefore(a, b)
  {
    if a != "" && b != "" {
      if a[0] == b[0] {
        BeforeTail(a, b);
        LeqIff(a[1..], b[1..]);
      } else if a[0] < b[0] {
        assert IsSmallerAt(a, b, 0);
      }
    }
  }

  ghost predicate Sorted(s: seq<string>) {
    forall i, j | 0 <= i < j < |s| :: Leq(s[i], s[j])
  }

  /** In the order of the standard library. */
  lemma SortedIff(s: seq<string>)
    ensures Sorted(s) <==> forall i, j | 0 <= i < j < |s| :: IsBefore(s[i], s[j])
  {
    forall i, j | 0 <= i < j < |s|
      ensures Leq(s[i], s[j]) <==> IsBefore(s[i], s[j])
    {
      LeqIff(s[i], s[j]);
    }
  }

  function Insert(x: string, s: seq<string>): seq<string> {
    if s == [] then [x]
    else if Leq(x, s[0]) then [x] + s
    else [s[0]] + Insert(x, s[1..])
  }

  function Sort(s: seq<string>): seq<string> {
    if s == [] then [] else Insert(s[0], Sort(s[1..]))
  }

  lemma {:induction false} InsertPermutes(x: string, s: seq<string>)
    ensures multiset(Insert(x, s)) == multiset(s) + multiset{x}
  {
    if s != [] && !Leq(x, s[0]) {
      InsertPermutes(x, s[1..]);
      assert s == [s[0]] + s[1..];
    }
  }

  lemma InsertMember(x: string, s: seq<string>, y: string)
    requires y in Insert(x, s)
    ensures y == x || y in s
  {
    InsertPermutes(x, s);
    assert y in multiset(Insert(x, s));
  }

  lemma {:induction false} InsertSorts(x: string, s: seq<string>)
    requires Sorted(s)
    ensures Sorted(Insert(x, s))
  {
    if s != [] {
      if Leq(x, s[0]) {
        forall i | 0 < i < |s|
          ensures Leq(x, s[i])
        {
          LeqTransitive(x, s[0], s[i]);
        }
      } else {
        LeqTotal(x, s[0]);
        InsertSorts(x, s[1..]);
        forall y | y in Insert(x, s[1..])
          ensures Leq(s[0], y)
        {
          InsertMember(x, s[1..], y);
        }
      }
    }
  }

  lemma {:induction false} SortSorts(s: seq<string>)
    ensures Sorted(Sort(s)) && multiset(Sort(s)) == multiset(s)
  {
    if s != [] {
      SortSorts(s[1..]);
      InsertSorts(s[0], Sort(s[1..]));
      InsertPermutes(s[0], Sort(s[1..]));
      assert s == [s[0]] + s[1..];
    }
  }

  /** `verbs`: walk the tree, then sort. */
  method Verbs(root: Command) returns (out: seq<string>)
    ensures out == Sort(Leaves(root, ""))
    ensures forall i, j | 0 <= i < j < |out| :: IsBefore(out[i], out[j])
    ensures multiset(out) == multiset(ExpectedVerbs(root)) <==> TopNamesNonEmpty(root)
  {
    out := Collect(root, "", []);
    assert out == Leaves(root, "");
    SortSorts(out);
    WalkExactIff(root);
    out := Sort(out);
    SortedIff(out);
  }

  // ---------------------------------------------------------------- verbs are distinct

  /** Names have no spaces, all the way down, leaving out what is hidden or called `help`. */
  ghost predicate IsSpaceFree(c: Command) {
    forall i | 0 <= i < |c.subs| && !c.subs[i].hidden && c.subs[i].name != "help" ::
      ' ' !in c.subs[i].name && IsSpaceFree(c.subs[i])
  }

  /** Siblings have distinct names, all the way down, leaving out what is hidden or called `help`. */
  ghost predicate HasDistinctSiblings(c: Command) {
    && (forall i | 0 <= i < |c.subs| && !c.subs[i].hidden && c.subs[i].name != "help" :: HasDistinctSiblings(c.subs[i]))
    && (forall i, j | 0 <= i < j < |c.subs| && !c.subs[i].hidden && !c.subs[j].hidden && c.subs[i].name != "help" ::
          c.subs[i].name != c.subs[j].name)
  }

  ghost predicate Tidy(c: Command) {
    IsSpaceFree(c) && HasDistinctSiblings(c)
  }

  lemma {:induction false} NamesSpaceFree(c: Command, p: seq<nat>)
    requires IsSpaceFree(c) && IsLeafPath(c, p)
    ensures forall n | n in Names(c, p) :: ' ' !in n
    decreases |p|
  {
    if |p| > 1 {
      NamesSpaceFree(c.subs[p[0]], p[1..]);
    }
  }

  lemma {:induction false} NamesSkipHelp(c: Command, p: seq<nat>)
    requires IsLeafPath(c, p)
    ensures "help" !in Names(c, p)
    decreases |p|
  {
    if |p| > 1 {
      NamesSkipHelp(c.subs[p[0]], p[1..]);
    }
  }

  /** Every verb the walk yields is a path of commands none of which is hidden or called `help`. */
  lemma VerbsSkipHelp(c: Command, k: nat)
    requires IsSpaceFree(c) && TopNamesNonEmpty(c) && k < |Leaves(c, "")|
    ensures exists p :: IsLeafPath(c, p) && Split(Leaves(c, "")[k], ' ') == Names(c, p)
    ensures "help" !in Split(Leaves(c, "")[k], ' ')
  {
    WalkExactIff(c);
    AllLeafPaths(c, 0);
    var p := PathsFrom(c, 0)[k];
    assert p in PathsFrom(c, 0);
    NamesSpaceFree(c, p);
    NamesSkipHelp(c, p);
    SplitJoin(Names(c, p), ' ');
  }

  lemma {:induction false} NamesInjective(c: Command, p: seq<nat>, q: seq<nat>)
    requires HasDistinctSiblings(c) && IsLeafPath(c, p) && IsLeafPath(c, q)
    requires Names(c, p) == Names(c, q)
    ensures p == q
    decreases |p|
  {
    assert |p| == |q|;
    assert Names(c, p)[0] == Names(c, q)[0];
    assert p[0] == q[0];
    if |p| > 1 {
      assert Names(c, p)[1..] == Names(c.subs[p[0]], p[1..]);
      assert Names(c, q)[1..] == Names(c.subs[q[0]], q[1..]);
      NamesInjective(c.subs[p[0]], p[1..], q[1..]);
      assert p == [p[0]] + p[1..] && q == [q[0]] + q[1..];
    }
  }

  /** With distinct, space-free sibling names, no two leaf paths share a verb. */
  lemma VerbsDistinct(c: Command)
    requires Tidy(c)
    ensures NoRepeats(ExpectedVerbs(c))
  {
    AllLeafPaths(c, 0);
    PathsNoRepeats(c, 0);
    var ps := PathsFrom(c, 0);
    forall i, j | 0 <= i < j < |ps|
      ensures ExpectedVerbs(c)[i] != ExpectedVerbs(c)[j]
    {
      if ExpectedVerbs(c)[i] == ExpectedVerbs(c)[j] {
        NamesSpaceFree(c, ps[i]);
        NamesSpaceFree(c, ps[j]);
        JoinInjective(Names(c, ps[i]), Names(c, ps[j]), ' ');
        NamesInjective(c, ps[i], ps[j]);
      }
    }
  }

  // ---------------------------------------------------------------- the dump

  datatype VerbRoutes = VerbRoutes(verb: string, routes: seq<string>)

  /** One entry of the dump; `None` prints as `null`. */
  datatype Entry = Entry(verb: string, routes: Option<seq<string>>)

  /** The routes of the first table entry for `verb`. */
  function RoutesFor(table: seq<VerbRoutes>, verb: string): Option<seq<string>> {
    if table == [] then None
    else if table[0].verb == verb then Some(table[0].routes)
    else RoutesFor(table[1..], verb)
  }

  function Dump(table: seq<VerbRoutes>, verbs: seq<string>): seq<Entry> {
    seq(|verbs|, i requires 0 <= i < |verbs| => Entry(verbs[i], RoutesFor(table, verbs[i])))
  }

  /** The coverage check: no verb without declared routes, no declaration without a verb. */
  predicate CoveragePasses(table: seq<VerbRoutes>, verbs: seq<string>) {
    && (forall v | v in verbs :: RoutesFor(table, v).Some?)
    && (forall e | e in table :: e.verb in verbs)
  }

  lemma {:induction false} RoutesForIff(table: seq<VerbRoutes>, verb: string)
    ensures RoutesFor(table, verb).Some? <==> exists e | e in table :: e.verb == verb
    ensures RoutesFor(table, verb).Some? ==> VerbRoutes(verb, RoutesFor(table, verb).value) in table
  {
    if table != [] && table[0].verb != verb {
      RoutesForIff(table[1..], verb);
      assert table == [table[0]] + table[1..];
    }
  }

  /** Of several entries for a verb, the first counts. */
  lemma {:induction false} RoutesForFirst(table: seq<VerbRoutes>, k: nat)
    requires k < |table| && forall j | 0 <= j < k :: table[j].verb != table[k].verb
    ensures RoutesFor(table, table[k].verb) == Some(table[k].routes)
    decreases k
  {
    if k > 0 {
      RoutesForFirst(table[1..], k - 1);
    }
  }

  lemma PermutationKeepsNoRepeats(a: seq<string>, b: seq<string>)
    requires multiset(a) == multiset(b) && NoRepeats(a)
    ensures NoRepeats(b)
  {
    forall i, j | 0 <= i < j < |b|
      ensures b[i] != b[j]
    {
      if b[i] == b[j] {
        assert b == b[..i] + [b[i]] + b[i+1..j] + [b[j]] + b[j+1..];
        assert multiset(b)[b[i]] >= 2;
        assert multiset(a)[b[i]] >= 2;
        AtMostOnce(a, b[i]);
      }
    }
  }

  lemma {:induction false} AtMostOnce(a: seq<string>, x: string)
    requires NoRepeats(a)
    ensures multiset(a)[x] <= 1
  {
    if a != [] {
      AtMostOnce(a[1..], x);
      assert a == [a[0]] + a[1..];
      assert a[0] == x ==> x !in a[1..];
    }
  }

  ghost function DumpedVerbs(dump: seq<Entry>): set<string> {
    set entry | entry in dump :: entry.verb
  }

  ghost function DeclaredVerbs(table: seq<VerbRoutes>): set<string> {
    set e | e in table :: e.verb
  }

  /** The dump has one entry per verb. */
  lemma DumpVerbs(table: seq<VerbRoutes>, verbs: seq<string>)
    ensures DumpedVerbs(Dump(table, verbs)) == set v | v in verbs
  {
    var dump := Dump(table, verbs);
    forall v | v in verbs
      ensures v in DumpedVerbs(dump)
    {
      var i :| 0 <= i < |verbs| && verbs[i] == v;
      assert dump[i] in dump && dump[i].verb == v;
    }
  }

  lemma CoveredVerbs(table: seq<VerbRoutes>, verbs: seq<string>)
    requires CoveragePasses(table, verbs)
    ensures DeclaredVerbs(table) == set v | v in verbs
  {
    forall v | v in verbs
      ensures v in DeclaredVerbs(table)
    {
      RoutesForIff(table, v);
    }
  }

  /** Every entry of a covered dump has the routes some table entry declares for its verb. */
  lemma DumpRoutes(table: seq<VerbRoutes>, verbs: seq<string>, i: nat)
    requires CoveragePasses(table, verbs) && i < |verbs|
    ensures var entry := Dump(table, verbs)[i];
            entry.routes.Some? && VerbRoutes(entry.verb, entry.routes.value) in table
  {
    assert verbs[i] in verbs;
    RoutesForIff(table, verbs[i]);
  }

  /** The sorted walk of a tidy tree is its verbs, each once. */
  lemma SortedWalkExact(root: Command, verbs: seq<string>)
    requires Tidy(root) && TopNamesNonEmpty(root) && verbs == Sort(Leaves(root, ""))
    ensures multiset(verbs) == multiset(ExpectedVerbs(root)) && NoRepeats(verbs)
  {
    WalkExactIff(root);
    SortSorts(Leaves(root, ""));
    VerbsDistinct(root);
    PermutationKeepsNoRepeats(ExpectedVerbs(root), verbs);
  }

  /** When the coverage check passes, the dump lists every verb of the tree exactly once, each with the routes
      some table entry declares for it, and its verbs are exactly the table's. */
  lemma DumpExact(root: Command, table: seq<VerbRoutes>, verbs: seq<string>)
    requires Tidy(root) && TopNamesNonEmpty(root)
    requires verbs == Sort(Leaves(root, "")) && CoveragePasses(table, verbs)
    ensures var dump := Dump(table, verbs);
            && |dump| == |verbs| && (forall i | 0 <= i < |verbs| :: dump[i].verb == verbs[i])
            && (forall i, j | 0 <= i < j < |dump| :: dump[i].verb != dump[j].verb)
            && DumpedVerbs(dump) == (set v | v in ExpectedVerbs(root)) == DeclaredVerbs(table)
            && (forall i | 0 <= i < |dump| ::
                  dump[i].routes.Some? && VerbRoutes(dump[i].verb, dump[i].routes.value) in table)
  {
    SortedWalkExact(root, verbs);
    DumpVerbs(table, verbs);
    CoveredVerbs(table, verbs);
    assert forall v :: v in verbs <==> v in multiset(verbs);
    assert forall v :: v in ExpectedVerbs(root) <==> v in multiset(ExpectedVerbs(root));
    forall i | 0 <= i < |verbs|
      ensures var entry := Dump(table, verbs)[i];
              entry.routes.Some? && VerbRoutes(entry.verb, entry.routes.value) in table
    {
      DumpRoutes(table, verbs, i);
    }
  }
}
