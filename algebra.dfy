/** Domain equality and the disjoint union Domain.__add__. */
module Algebra {
  import opened Errors
  import opened Domains
  import opened Assembly

  /** Domain.__eq__: the same (path, leaf) entries, whatever the key order. */
  predicate Equal(a: Domain, b: Domain) {
    Entries(a) == Entries(b)
  }

  /** Domain.__add__: fails on a shared path, otherwise from_list of both entry lists. */
  function Add(a: Domain, b: Domain): Result<Domain> {
    var fa, fb := Flatten(a), Flatten(b);
    if Paths(fa) * Paths(fb) != {} then Err(ValueError)
    else FromList(fa + fb)
  }

  /** No leaf path of a is a prefix of, or equal to, a leaf path of b, nor the other way. */
  ghost predicate CanAdd(a: Domain, b: Domain) {
    forall e, f :: e in Entries(a) && f in Entries(b) ==> Compatible(e.0, f.0)
  }

  /** Equality of domains is equality of the maps from path to leaf. */
  lemma EqualIsSameLeaves(a: Domain, b: Domain)
    requires DistinctKeys(a) && DistinctKeys(b)
    ensures Equal(a, b) <==> forall p :: LeafAt(a, p) == LeafAt(b, p)
  {
    if Equal(a, b) {
      forall p ensures LeafAt(a, p) == LeafAt(b, p) {
        if LeafAt(a, p).Some? {
          var s := LeafAt(a, p).value;
          FlattenIsLeafAt(a, p, s);
          assert (p, s) in Entries(a);
          FlattenIsLeafAt(b, p, s);
        } else if LeafAt(b, p).Some? {
          var s := LeafAt(b, p).value;
          FlattenIsLeafAt(b, p, s);
          assert (p, s) in Entries(b);
          FlattenIsLeafAt(a, p, s);
        }
      }
    }
    if forall p :: LeafAt(a, p) == LeafAt(b, p) {
      forall e ensures e in Entries(a) <==> e in Entries(b) {
        FlattenIsLeafAt(a, e.0, e.1);
        FlattenIsLeafAt(b, e.0, e.1);
      }
    }
  }

  /** Swapping two keys gives an equal domain. */
  lemma EqualIgnoresKeyOrder(k1: string, n1: Node, k2: string, n2: Node, rest: Domain)
    ensures Equal(Entry(k1, n1, Entry(k2, n2, rest)), Entry(k2, n2, Entry(k1, n1, rest)))
  {
    FlattenEntry(k1, n1, Entry(k2, n2, rest));
    FlattenEntry(k2, n2, rest);
    FlattenEntry(k2, n2, Entry(k1, n1, rest));
    FlattenEntry(k1, n1, rest);
  }

  /** Replacing a sub-domain by an equal one gives an equal domain. */
  lemma EqualUnderKey(k: string, x: Domain, y: Domain, rest: Domain)
    requires Equal(x, y)
    ensures Equal(Entry(k, Sub(x), rest), Entry(k, Sub(y), rest))
  {
    forall e ensures e in Prefixed(k, Flatten(x)) <==> e in Prefixed(k, Flatten(y)) {
      PrefixedMember(k, Flatten(x), e.0, e.1);
      PrefixedMember(k, Flatten(y), e.0, e.1);
      if e.0 != [] {
        assert (e.0[1..], e.1) in Flatten(x) <==> (e.0[1..], e.1) in Entries(x);
        assert (e.0[1..], e.1) in Flatten(y) <==> (e.0[1..], e.1) in Entries(y);
      }
    }
  }

  /** Replacing the entries after a key by equal ones gives an equal domain. */
  lemma EqualInRest(k: string, n: Node, r1: Domain, r2: Domain)
    requires Equal(r1, r2)
    ensures Equal(Entry(k, n, r1), Entry(k, n, r2))
  {
    FlattenEntry(k, n, r1);
    FlattenEntry(k, n, r2);
    forall e ensures e in Flatten(Entry(k, n, r1)) <==> e in Flatten(Entry(k, n, r2)) {
      assert e in Flatten(r1) <==> e in Entries(r1);
      assert e in Flatten(r2) <==> e in Entries(r2);
    }
  }

  lemma FlattenEntry(k: string, n: Node, rest: Domain)
    ensures Flatten(Entry(k, n, rest)) == Flatten(Entry(k, n, Empty)) + Flatten(rest)
  {
  }

  /** The entries of a valid domain form an input from_list accepts. */
  lemma FlattenWellFormed(a: Domain)
    requires Valid(a)
    ensures PrefixFree(Flatten(a))
    ensures forall e :: e in Flatten(a) ==> e.0 != [] && ValidSpec(e.1)
  {
    FlattenPrefixFree(a);
    forall e | e in Flatten(a) ensures e.0 != [] {
      FlattenHeads(a, e);
    }
  }

  /** A shared path is one incompatible pair. */
  lemma OverlapIsIncompatible(a: Domain, b: Domain)
    requires Paths(Flatten(a)) * Paths(Flatten(b)) != {}
    ensures !CanAdd(a, b)
  {
    var p :| p in Paths(Flatten(a)) * Paths(Flatten(b));
    var e :| e in Flatten(a) && e.0 == p;
    var f :| f in Flatten(b) && f.0 == p;
    assert e in Entries(a) && f in Entries(b);
    assert !Compatible(e.0, f.0);
  }

  /** d1 + d2 succeeds exactly when no leaf path of one is a prefix of a leaf path of the other. */
  lemma AddSucceeds(a: Domain, b: Domain)
    requires Valid(a) && Valid(b)
    ensures Add(a, b).Ok? <==> CanAdd(a, b)
  {
    var fa, fb := Flatten(a), Flatten(b);
    FlattenWellFormed(a);
    FlattenWellFormed(b);
    PrefixFreeConcat(fa, fb);
    FromListSucceeds(fa + fb);
    if Paths(fa) * Paths(fb) != {} {
      OverlapIsIncompatible(a, b);
    }
    forall i | 0 <= i < |fa + fb| ensures (fa + fb)[i].0 != [] && ValidSpec((fa + fb)[i].1) {
      assert (fa + fb)[i] in fa || (fa + fb)[i] in fb;
    }
  }

  /** A failing sum raises ValueError exactly when the operands share a path. */
  lemma AddErrorKind(a: Domain, b: Domain)
    requires Add(a, b).Err?
    ensures Add(a, b).error == ValueError <==> Paths(Flatten(a)) * Paths(Flatten(b)) != {}
    ensures Paths(Flatten(a)) * Paths(Flatten(b)) == {} ==> Add(a, b).error == SpecificationError
  {
    FromListErrKind(Flatten(a) + Flatten(b));
  }

  /** A sum holds the leaves of both operands and nothing else. */
  lemma AddEntries(a: Domain, b: Domain)
    requires Add(a, b).Ok?
    ensures Valid(Add(a, b).value) && NoEmptySub(Add(a, b).value)
    ensures Entries(Add(a, b).value) == Entries(a) + Entries(b)
  {
    FromListEntries(Flatten(a) + Flatten(b));
  }

  /** d1 + d1 fails with ValueError as soon as d1 has a leaf. */
  lemma AddSelfFails(a: Domain)
    requires Flatten(a) != []
    ensures Add(a, a) == Err(ValueError)
  {
    var p := Flatten(a)[0].0;
    assert p in Paths(Flatten(a));
    assert p in Paths(Flatten(a)) * Paths(Flatten(a));
  }

  /** Domain({}) + d rebuilds d, without its leafless sub-domains. */
  lemma AddEmptyLeft(a: Domain)
    requires Valid(a)
    ensures Add(Empty, a) == Ok(Prune(a))
  {
    assert Flatten(Empty) + Flatten(a) == Flatten(a);
    FromListFlatten(a);
  }

  lemma AddCommutes(a: Domain, b: Domain)
    requires Valid(a) && Valid(b) && Add(a, b).Ok?
    ensures Add(b, a).Ok? && Equal(Add(a, b).value, Add(b, a).value)
  {
    AddEntries(a, b);
    AddSucceeds(a, b);
    AddSucceeds(b, a);
    AddEntries(b, a);
  }

  lemma CanAddSubsets(a: Domain, b: Domain, x: Domain, y: Domain)
    requires CanAdd(a, b) && Entries(x) <= Entries(a) && Entries(y) <= Entries(b)
    ensures CanAdd(x, y)
  {
  }

  lemma CanAddUnion(a: Domain, b: Domain, c: Domain, bc: Domain)
    requires CanAdd(a, b) && CanAdd(a, c) && Entries(bc) == Entries(b) + Entries(c)
    ensures CanAdd(a, bc)
  {
  }

  lemma AddAssociates(a: Domain, b: Domain, c: Domain)
    requires Valid(a) && Valid(b) && Valid(c)
    requires Add(a, b).Ok? && Add(Add(a, b).value, c).Ok?
    ensures Add(b, c).Ok? && Add(a, Add(b, c).value).Ok?
    ensures Equal(Add(Add(a, b).value, c).value, Add(a, Add(b, c).value).value)
  {
    var ab := Add(a, b).value;
    AddEntries(a, b);
    AddSucceeds(a, b);
    AddEntries(ab, c);
    AddSucceeds(ab, c);
    CanAddSubsets(ab, c, b, c);
    CanAddSubsets(ab, c, a, c);
    AddSucceeds(b, c);
    AddEntries(b, c);
    var bc := Add(b, c).value;
    CanAddUnion(a, b, c, bc);
    AddSucceeds(a, bc);
    AddEntries(a, bc);
  }
}
