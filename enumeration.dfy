/**
 * Samples: iteration over a fully discrete domain (the cartesian product of its
 * leaf sets) and the condition every random draw of Domain.sample meets.
 */
module Enumeration {
  import opened Errors
  import opened Domains

  /** The concrete value under a key: a literal, or a nested sample. */
  datatype Value = Scalar(lit: Lit) | Nested(sample: Sample)

  /** A Sample: the nesting of a domain with a single value in place of every leaf. */
  datatype Sample = Done | Assign(key: string, value: Value, rest: Sample)

  /** v is a value the leaf s may take: a member of the set, or a number in [low, high]. */
  predicate Admits(s: Spec, v: Lit) {
    match s
    case Finite(vs) => v in vs
    case Range(lo, hi) =>
      IsNumber(v) && IsNumber(lo) && IsNumber(hi) &&
      NumberValue(lo) <= NumberValue(v) <= NumberValue(hi)
  }

  /** smp mirrors d key by key, and each of its values is admitted by the leaf at that place. */
  predicate Conforms(smp: Sample, d: Domain) {
    match smp
    case Done => d == Empty
    case Assign(k, v, r) =>
      d.Entry? && d.key == k && Conforms(r, d.rest) &&
      match v
      case Scalar(l) => d.node.Leaf? && Admits(d.node.spec, l)
      case Nested(x) => d.node.Sub? && Conforms(x, d.node.domain)
  }

  /** sample[p0][p1]...: the value a sample holds at path p. */
  function SampleAt(smp: Sample, p: Path): Option<Lit> {
    if p == [] then None
    else match smp
      case Done => None
      case Assign(k, v, r) =>
        if k != p[0] then SampleAt(r, p)
        else match v
          case Scalar(l) => if |p| == 1 then Some(l) else None
          case Nested(x) => SampleAt(x, p[1..])
  }

  /** Some leaf of d is a continuous range. */
  predicate HasRange(d: Domain) {
    match d
    case Empty => false
    case Entry(_, Leaf(s), rest) => s.Range? || HasRange(rest)
    case Entry(_, Sub(sd), rest) => HasRange(sd) || HasRange(rest)
  }

  /** The values a key may take in the product: the leaf's members, or the samples of its sub-domain. */
  function Choices(n: Node): set<Value>
    requires match n case Leaf(s) => s.Finite? case Sub(sd) => !HasRange(sd)
  {
    match n
    case Leaf(s) => set l | l in s.values :: Scalar(l)
    case Sub(sd) => set x | x in Product(sd) :: Nested(x)
  }

  /** The cartesian product: every way of choosing one member of each leaf set. */
  function Product(d: Domain): set<Sample>
    requires !HasRange(d)
  {
    match d
    case Empty => {Done}
    case Entry(k, n, rest) =>
      Pairs(k, Choices(n), Product(rest))
  }

  /** Domain.__iter__: DomainNotIterableError if any leaf is a range, else the product. */
  function Iterate(d: Domain): Result<set<Sample>> {
    if HasRange(d) then Err(NotIterableError) else Ok(Product(d))
  }

  /** The number of combinations of a list of finite leaves. */
  function Combinations(es: Flat): nat
    requires forall e :: e in es ==> e.1.Finite?
  {
    if es == [] then 1 else |es[0].1.values| * Combinations(es[1..])
  }

  /**
   * Domain.sample with its random source made a parameter: pick(p) is the
   * value drawn for the leaf at path p.
   */
  function Draw(d: Domain, pick: Path -> Lit): Sample {
    match d
    case Empty => Done
    case Entry(k, Leaf(_), rest) => Assign(k, Scalar(pick([k])), Draw(rest, pick))
    case Entry(k, Sub(sd), rest) =>
      Assign(k, Nested(Draw(sd, p => pick([k] + p))), Draw(rest, pick))
  }

  // ---------------------------------------------------------------------

  /** Iteration refuses a domain exactly when one of its flattened leaves is a range. */
  lemma {:induction false} HasRangeIffRangeLeaf(d: Domain)
    ensures HasRange(d) <==> exists e :: e in Flatten(d) && e.1.Range?
  {
    match d
    case Empty =>
    case Entry(k, n, rest) =>
      HasRangeIffRangeLeaf(rest);
      if n.Sub? {
        HasRangeIffRangeLeaf(n.domain);
        if HasRange(n.domain) {
          var e :| e in Flatten(n.domain) && e.1.Range?;
          PrefixedMember(k, Flatten(n.domain), [k] + e.0, e.1);
          assert ([k] + e.0)[1..] == e.0;
          assert ([k] + e.0, e.1) in Flatten(d);
        }
        if exists e :: e in Flatten(d) && e.1.Range? {
          var e :| e in Flatten(d) && e.1.Range?;
          if e !in Flatten(rest) {
            PrefixedMember(k, Flatten(n.domain), e.0, e.1);
          }
        }
      } else {
        assert ([k], n.spec) in Flatten(d);
      }
  }

  /** The product holds exactly the samples that conform to the domain. */
  lemma {:induction false} ProductIsConforming(d: Domain, smp: Sample)
    requires !HasRange(d)
    ensures smp in Product(d) <==> Conforms(smp, d)
  {
    match d
    case Empty =>
    case Entry(k, n, rest) =>
      if smp.Assign? {
        ProductIsConforming(rest, smp.rest);
        if n.Sub? && smp.value.Nested? {
          ProductIsConforming(n.domain, smp.value.sample);
        }
        if Conforms(smp, d) {
          assert smp.value in Choices(n);
        }
      }
  }

  function Image<A, B>(s: set<A>, f: A -> B): set<B> {
    set x | x in s :: f(x)
  }

  lemma {:induction false} InjectiveImageSize<A, B>(s: set<A>, f: A -> B)
    requires forall x, y :: x in s && y in s && f(x) == f(y) ==> x == y
    ensures |Image(s, f)| == |s|
    decreases |s|
  {
    if s != {} {
      var a :| a in s;
      var s' := s - {a};
      InjectiveImageSize(s', f);
      assert Image(s, f) == Image(s', f) + {f(a)};
    }
  }

  /** Every sample assigning k one of vs, followed by one of rs. */
  function Pairs(k: string, vs: set<Value>, rs: set<Sample>): set<Sample> {
    set v, r | v in vs && r in rs :: Assign(k, v, r)
  }

  lemma RowSize(k: string, a: Value, rs: set<Sample>)
    ensures |Pairs(k, {a}, rs)| == |rs|
  {
    var f := (r: Sample) => Assign(k, a, r);
    InjectiveImageSize(rs, f);
    assert Pairs(k, {a}, rs) == Image(rs, f);
  }

  lemma PairsSplit(k: string, vs: set<Value>, a: Value, rs: set<Sample>)
    requires a in vs
    ensures Pairs(k, vs, rs) == Pairs(k, vs - {a}, rs) + Pairs(k, {a}, rs)
    ensures Pairs(k, vs - {a}, rs) !! Pairs(k, {a}, rs)
  {
  }

  lemma {:induction false} PairsSize(k: string, vs: set<Value>, rs: set<Sample>)
    ensures |Pairs(k, vs, rs)| == |vs| * |rs|
    decreases |vs|
  {
    if vs != {} {
      var a :| a in vs;
      PairsSize(k, vs - {a}, rs);
      RowSize(k, a, rs);
      PairsSplit(k, vs, a, rs);
      assert |vs| == |vs - {a}| + 1;
      assert |vs| * |rs| == |vs - {a}| * |rs| + |rs|;
    } else {
      assert Pairs(k, vs, rs) == {};
    }
  }

  lemma {:induction false} CombinationsConcat(a: Flat, b: Flat)
    requires forall e :: e in a + b ==> e.1.Finite?
    ensures Combinations(a + b) == Combinations(a) * Combinations(b)
    decreases |a|
  {
    if a == [] {
      assert a + b == b;
    } else {
      assert (a + b)[1..] == a[1..] + b;
      CombinationsConcat(a[1..], b);
    }
  }

  lemma {:induction false} CombinationsPrefixed(k: string, es: Flat)
    requires forall e :: e in es ==> e.1.Finite?
    ensures forall e :: e in Prefixed(k, es) ==> e.1.Finite?
    ensures Combinations(Prefixed(k, es)) == Combinations(es)
    decreases |es|
  {
    if es != [] {
      assert Prefixed(k, es)[1..] == Prefixed(k, es[1..]);
      CombinationsPrefixed(k, es[1..]);
    }
  }

  /** An iterable domain yields the product of the sizes of its leaf sets, all distinct samples. */
  lemma {:induction false} ProductSize(d: Domain)
    requires !HasRange(d)
    ensures forall e :: e in Flatten(d) ==> e.1.Finite?
    ensures |Product(d)| == Combinations(Flatten(d))
  {
    HasRangeIffRangeLeaf(d);
    match d
    case Empty =>
    case Entry(k, n, rest) =>
      ProductSize(rest);
      PairsSize(k, Choices(n), Product(rest));
      match n
      case Leaf(s) =>
        var f := (l: Lit) => Scalar(l);
        InjectiveImageSize(s.values, f);
        assert Choices(n) == Image(s.values, f);
        assert [([k], s)] + Flatten(rest) == Flatten(d);
        CombinationsConcat([([k], s)], Flatten(rest));
      case Sub(sd) =>
        ProductSize(sd);
        var f := (x: Sample) => Nested(x);
        InjectiveImageSize(Product(sd), f);
        assert Choices(n) == Image(Product(sd), f);
        CombinationsPrefixed(k, Flatten(sd));
        CombinationsConcat(Prefixed(k, Flatten(sd)), Flatten(rest));
        assert Combinations(Flatten(d)) == Combinations(Flatten(sd)) * Combinations(Flatten(rest));
        assert |Product(d)| == |Choices(n)| * |Product(rest)|;
        assert |Choices(n)| == |Product(sd)|;
  }

  /** A conforming sample holds, at every leaf path, a value that leaf admits. */
  lemma {:induction false} ConformsAt(smp: Sample, d: Domain, p: Path)
    requires Conforms(smp, d) && LeafAt(d, p).Some?
    ensures SampleAt(smp, p).Some? && Admits(LeafAt(d, p).value, SampleAt(smp, p).value)
  {
    match smp
    case Assign(k, v, r) =>
      if k != p[0] {
        ConformsAt(r, d.rest, p);
      } else if v.Nested? {
        ConformsAt(v.sample, d.node.domain, p[1..]);
      }
  }

  /** A draw whose every leaf pick is admitted conforms to the domain. */
  lemma {:induction false} DrawConforms(d: Domain, pick: Path -> Lit)
    requires forall e :: e in Flatten(d) ==> Admits(e.1, pick(e.0))
    ensures Conforms(Draw(d, pick), d)
  {
    match d
    case Empty =>
    case Entry(k, n, rest) =>
      DrawConforms(rest, pick);
      match n
      case Leaf(s) =>
        assert ([k], s) in Flatten(d);
      case Sub(sd) =>
        var pick' := (p: Path) => pick([k] + p);
        forall e | e in Flatten(sd) ensures Admits(e.1, pick'(e.0)) {
          PrefixedMember(k, Flatten(sd), [k] + e.0, e.1);
          assert ([k] + e.0)[1..] == e.0;
          assert ([k] + e.0, e.1) in Flatten(d);
        }
        DrawConforms(sd, pick');
  }

  /** The draw holds pick(p) at every leaf path p. */
  lemma {:induction false} DrawAt(d: Domain, pick: Path -> Lit, p: Path)
    requires LeafAt(d, p).Some?
    ensures SampleAt(Draw(d, pick), p) == Some(pick(p))
  {
    match d
    case Entry(k, n, rest) =>
      if k != p[0] {
        DrawAt(rest, pick, p);
      } else if n.Sub? {
        DrawAt(n.domain, (q: Path) => pick([k] + q), p[1..]);
        assert [k] + p[1..] == p;
      } else {
        assert p == [k];
      }
  }

  /** Every valid domain, ranges included, has a sample: sampling never fails. */
  lemma {:induction false} SampleExists(d: Domain) returns (smp: Sample)
    requires Valid(d)
    ensures Conforms(smp, d)
  {
    match d
    case Empty =>
      smp := Done;
    case Entry(k, n, rest) =>
      ValidParts(k, n, rest);
      var r := SampleExists(rest);
      match n
      case Leaf(Range(lo, hi)) =>
        smp := Assign(k, Scalar(lo), r);
      case Leaf(Finite(vs)) =>
        var l :| l in vs;
        smp := Assign(k, Scalar(l), r);
      case Sub(sd) =>
        var x := SampleExists(sd);
        smp := Assign(k, Nested(x), r);
  }
}
