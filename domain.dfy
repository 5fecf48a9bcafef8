/**
 * The Domain value: a string-keyed tree, kept in key-insertion order, whose
 * leaves are continuous ranges or finite sets of literals; its flattened form
 * as (path, leaf) entries, and path lookup.
 */
module Domains {
  import opened Errors

  /** A literal a finite set may hold or a range may be bounded by. */
  datatype Lit = Int(i: int) | Real(r: real) | Str(s: string) | Bool(b: bool)

  predicate IsNumber(l: Lit) {
    l.Int? || l.Real?
  }

  function NumberValue(l: Lit): real
    requires IsNumber(l)
  {
    if l.Int? then l.i as real else l.r
  }

  /** A leaf: the two-element list [low, high] or a set of literals. */
  datatype Spec = Range(low: Lit, high: Lit) | Finite(values: set<Lit>)

  predicate ValidSpec(s: Spec) {
    match s
    case Range(lo, hi) => IsNumber(lo) && IsNumber(hi) && NumberValue(lo) <= NumberValue(hi)
    case Finite(vs) => vs != {}
  }

  /** A value held under a key: a leaf, or a nested domain. */
  datatype Node = Leaf(spec: Spec) | Sub(domain: Domain)

  /** An ordered mapping from key to node; the first entry is the first key inserted. */
  datatype Domain = Empty | Entry(key: string, node: Node, rest: Domain)

  type Path = seq<string>

  type Flat = seq<(Path, Spec)>

  function Keys(d: Domain): set<string> {
    match d
    case Empty => {}
    case Entry(k, _, rest) => {k} + Keys(rest)
  }

  /** No key appears twice on one level, at any depth (a Python dict). */
  predicate DistinctKeys(d: Domain) {
    match d
    case Empty => true
    case Entry(k, n, rest) =>
      k !in Keys(rest) && (n.Sub? ==> DistinctKeys(n.domain)) && DistinctKeys(rest)
  }

  /** Every sub-domain holds at least one key, at any depth. */
  predicate NoEmptySub(d: Domain) {
    match d
    case Empty => true
    case Entry(_, n, rest) =>
      (n.Sub? ==> n.domain != Empty && NoEmptySub(n.domain)) && NoEmptySub(rest)
  }

  /** Entries with the key k put in front of every path. */
  function Prefixed(k: string, es: Flat): Flat {
    seq(|es|, i requires 0 <= i < |es| => ([k] + es[i].0, es[i].1))
  }

  /** One entry per leaf, keyed by its path from the root, depth first in key order. */
  function Flatten(d: Domain): Flat {
    match d
    case Empty => []
    case Entry(k, Leaf(s), rest) => [([k], s)] + Flatten(rest)
    case Entry(k, Sub(sd), rest) => Prefixed(k, Flatten(sd)) + Flatten(rest)
  }

  /** The node reached by following the keys of p from the root (d[p0][p1]...). */
  function Get(d: Domain, p: Path): Option<Node> {
    if p == [] then None
    else match d
      case Empty => None
      case Entry(k, n, rest) =>
        if k != p[0] then Get(rest, p)
        else if |p| == 1 then Some(n)
        else if n.Sub? then Get(n.domain, p[1..])
        else None
  }

  /** The leaf at path p, if there is one. */
  function LeafAt(d: Domain, p: Path): Option<Spec> {
    match Get(d, p)
    case Some(Leaf(s)) => Some(s)
    case _ => None
  }

  /** A valid domain: Python-dict keys and well-formed leaves. */
  predicate Valid(d: Domain) {
    DistinctKeys(d) && forall e :: e in Flatten(d) ==> ValidSpec(e.1)
  }

  /** p is q or a prefix of q. */
  predicate IsPrefix(p: Path, q: Path) {
    |p| <= |q| && q[..|p|] == p
  }

  /** Two leaf paths can coexist in one tree. */
  predicate Compatible(p: Path, q: Path) {
    !IsPrefix(p, q) && !IsPrefix(q, p)
  }

  function Paths(es: Flat): set<Path> {
    set e | e in es :: e.0
  }

  function Entries(d: Domain): set<(Path, Spec)> {
    set e | e in Flatten(d)
  }

  // ---------------------------------------------------------------------
  // Lemmas about flatten

  lemma PrefixedMember(k: string, es: Flat, p: Path, s: Spec)
    ensures (p, s) in Prefixed(k, es) <==> p != [] && p[0] == k && (p[1..], s) in es
  {
    if (p, s) in Prefixed(k, es) {
      var i :| 0 <= i < |es| && Prefixed(k, es)[i] == (p, s);
      assert p[1..] == es[i].0;
    }
    if p != [] && p[0] == k && (p[1..], s) in es {
      var i :| 0 <= i < |es| && es[i] == (p[1..], s);
      assert [k] + p[1..] == p;
      assert Prefixed(k, es)[i] == (p, s);
    }
  }

  lemma PrefixedConcat(k: string, a: Flat, b: Flat)
    ensures Prefixed(k, a + b) == Prefixed(k, a) + Prefixed(k, b)
  {
  }

  /** Every flattened path is non-empty and starts with a key of the domain. */
  lemma {:induction false} FlattenHeads(d: Domain, e: (Path, Spec))
    requires e in Flatten(d)
    ensures e.0 != [] && e.0[0] in Keys(d)
  {
    match d
    case Empty =>
    case Entry(k, n, rest) =>
      if e in Flatten(rest) {
        FlattenHeads(rest, e);
      } else if n.Sub? {
        PrefixedMember(k, Flatten(n.domain), e.0, e.1);
      }
  }

  /** flatten and path lookup agree: an entry is exactly a leaf at its path. */
  lemma {:induction false} FlattenIsLeafAt(d: Domain, p: Path, s: Spec)
    requires DistinctKeys(d)
    ensures (p, s) in Flatten(d) <==> LeafAt(d, p) == Some(s)
  {
    match d
    case Empty =>
    case Entry(k, n, rest) =>
      FlattenIsLeafAt(rest, p, s);
      if (p, s) in Flatten(rest) {
        FlattenHeads(rest, (p, s));
      }
      match n
      case Leaf(t) =>
        if p != [] && p[0] == k && |p| == 1 {
          assert p == [k];
        }
      case Sub(sd) =>
        PrefixedMember(k, Flatten(sd), p, s);
        if p != [] && p[0] == k && |p| > 1 {
          FlattenIsLeafAt(sd, p[1..], s);
        }
        if p == [k] {
          assert (p[1..], s) !in Flatten(sd) by {
            if (p[1..], s) in Flatten(sd) {
              FlattenHeads(sd, (p[1..], s));
            }
          }
        }
  }

  /** Distinct positions of a flattened list hold paths that can coexist in one tree. */
  predicate PrefixFree(es: Flat) {
    forall i, j :: 0 <= i < |es| && 0 <= j < |es| && i != j ==> Compatible(es[i].0, es[j].0)
  }

  lemma PrefixCons(k: string, p: Path, q: Path)
    ensures IsPrefix([k] + p, [k] + q) <==> IsPrefix(p, q)
    ensures Compatible([k] + p, [k] + q) <==> Compatible(p, q)
  {
    if IsPrefix([k] + p, [k] + q) {
      assert p == ([k] + q)[..|[k] + p|][1..];
    }
    if IsPrefix(p, q) {
      assert ([k] + q)[..|[k] + p|] == [k] + q[..|p|];
    }
    if IsPrefix([k] + q, [k] + p) {
      assert q == ([k] + p)[..|[k] + q|][1..];
    }
    if IsPrefix(q, p) {
      assert ([k] + p)[..|[k] + q|] == [k] + p[..|q|];
    }
  }

  /** Paths that differ in their first key are compatible. */
  lemma HeadsDiffer(p: Path, q: Path)
    requires p != [] && q != [] && p[0] != q[0]
    ensures Compatible(p, q)
  {
  }

  lemma {:induction false} PrefixedPrefixFree(k: string, es: Flat)
    requires PrefixFree(es)
    ensures PrefixFree(Prefixed(k, es))
  {
    var r := Prefixed(k, es);
    forall i, j | 0 <= i < |r| && 0 <= j < |r| && i != j
      ensures Compatible(r[i].0, r[j].0)
    {
      PrefixCons(k, es[i].0, es[j].0);
    }
  }

  /** In a domain with Python-dict keys, no leaf path is a prefix of another. */
  lemma {:induction false} FlattenPrefixFree(d: Domain)
    requires DistinctKeys(d)
    ensures PrefixFree(Flatten(d))
  {
    match d
    case Empty =>
    case Entry(k, n, rest) =>
      FlattenPrefixFree(rest);
      var a := if n.Leaf? then [([k], n.spec)] else Prefixed(k, Flatten(n.domain));
      if n.Sub? {
        FlattenPrefixFree(n.domain);
        PrefixedPrefixFree(k, Flatten(n.domain));
      }
      var b := Flatten(rest);
      assert Flatten(d) == a + b;
      forall i, j | 0 <= i < |a| && 0 <= j < |b|
        ensures Compatible(a[i].0, b[j].0)
      {
        FlattenHeads(rest, b[j]);
        if n.Sub? {
          PrefixedMember(k, Flatten(n.domain), a[i].0, a[i].1);
        }
        HeadsDiffer(a[i].0, b[j].0);
      }
  }

  /** Following a leaf's path any further reaches nothing. */
  lemma {:induction false} GetBelowLeaf(d: Domain, p: Path, q: Path)
    requires Get(d, p).Some? && Get(d, p).value.Leaf?
    requires IsPrefix(p, q) && |p| < |q|
    ensures Get(d, q) == None
  {
    match d
    case Empty =>
    case Entry(k, n, rest) =>
      assert q[0] == q[..|p|][0] == p[0];
      if k != p[0] {
        GetBelowLeaf(rest, p, q);
      } else if |p| > 1 {
        assert IsPrefix(p[1..], q[1..]) by {
          assert q[1..][..|p[1..]|] == q[..|p|][1..];
        }
        GetBelowLeaf(n.domain, p[1..], q[1..]);
      }
  }

  /** Two different leaf paths of one tree are compatible. */
  lemma LeavesCompatible(d: Domain, p: Path, q: Path)
    requires LeafAt(d, p).Some? && LeafAt(d, q).Some? && p != q
    ensures Compatible(p, q)
  {
    if IsPrefix(p, q) && |p| < |q| {
      GetBelowLeaf(d, p, q);
    }
    if IsPrefix(q, p) && |q| < |p| {
      GetBelowLeaf(d, q, p);
    }
  }

  // ---------------------------------------------------------------------
  // Concatenation and pruning of domains

  /** The entries of a followed by those of b. */
  function Concat(a: Domain, b: Domain): Domain {
    match a
    case Empty => b
    case Entry(k, n, rest) => Entry(k, n, Concat(rest, b))
  }

  /** The domain with every sub-domain that holds no leaf removed. */
  function Prune(d: Domain): Domain {
    match d
    case Empty => Empty
    case Entry(k, Leaf(s), rest) => Entry(k, Leaf(s), Prune(rest))
    case Entry(k, Sub(sd), rest) =>
      var p := Prune(sd);
      if p == Empty then Prune(rest) else Entry(k, Sub(p), Prune(rest))
  }

  lemma {:induction false} ConcatFacts(a: Domain, b: Domain)
    ensures Keys(Concat(a, b)) == Keys(a) + Keys(b)
    ensures Flatten(Concat(a, b)) == Flatten(a) + Flatten(b)
    ensures DistinctKeys(a) && DistinctKeys(b) && Keys(a) !! Keys(b) ==> DistinctKeys(Concat(a, b))
    ensures NoEmptySub(a) && NoEmptySub(b) ==> NoEmptySub(Concat(a, b))
  {
    match a
    case Empty =>
    case Entry(k, n, rest) =>
      ConcatFacts(rest, b);
  }

  lemma {:induction false} ConcatAssoc(a: Domain, b: Domain, c: Domain)
    ensures Concat(Concat(a, b), c) == Concat(a, Concat(b, c))
  {
    match a
    case Empty =>
    case Entry(_, _, rest) =>
      ConcatAssoc(rest, b, c);
  }

  /** Pruning keeps every leaf in place and leaves no empty sub-domain. */
  lemma {:induction false} PruneFacts(d: Domain)
    ensures Flatten(Prune(d)) == Flatten(d)
    ensures Keys(Prune(d)) <= Keys(d)
    ensures NoEmptySub(Prune(d))
    ensures DistinctKeys(d) ==> DistinctKeys(Prune(d))
    ensures NoEmptySub(d) ==> Prune(d) == d
  {
    match d
    case Empty =>
    case Entry(k, n, rest) =>
      PruneFacts(rest);
      if n.Sub? {
        PruneFacts(n.domain);
        if Prune(n.domain) == Empty {
          assert Flatten(n.domain) == [];
        }
      }
  }

  /** A non-empty domain without empty sub-domains has a leaf. */
  lemma {:induction false} SomeLeaf(d: Domain) returns (p: Path)
    requires NoEmptySub(d) && d != Empty
    ensures LeafAt(d, p).Some?
  {
    var k, n := d.key, d.node;
    if n.Leaf? {
      p := [k];
    } else {
      var q := SomeLeaf(n.domain);
      p := [k] + q;
      assert p[1..] == q;
    }
  }

  /** The parts of a valid entry are valid. */
  lemma ValidParts(k: string, n: Node, rest: Domain)
    requires Valid(Entry(k, n, rest))
    ensures Valid(rest)
    ensures n.Leaf? ==> ValidSpec(n.spec)
    ensures n.Sub? ==> Valid(n.domain)
  {
    if n.Leaf? {
      assert ([k], n.spec) in Flatten(Entry(k, n, rest));
    }
    if n.Sub? {
      forall e | e in Flatten(n.domain) ensures ValidSpec(e.1) {
        PrefixedMember(k, Flatten(n.domain), [k] + e.0, e.1);
        assert ([k] + e.0)[1..] == e.0;
        assert ([k] + e.0, e.1) in Flatten(Entry(k, n, rest));
      }
    }
  }

  /** An entry built from valid parts under a fresh key is valid. */
  lemma ValidEntry(k: string, n: Node, rest: Domain)
    requires Valid(rest) && k !in Keys(rest)
    requires n.Leaf? ==> ValidSpec(n.spec)
    requires n.Sub? ==> Valid(n.domain)
    ensures Valid(Entry(k, n, rest))
  {
    forall e | e in Flatten(Entry(k, n, rest)) ensures ValidSpec(e.1) {
      if n.Sub? && e !in Flatten(rest) {
        PrefixedMember(k, Flatten(n.domain), e.0, e.1);
      }
    }
  }
}
