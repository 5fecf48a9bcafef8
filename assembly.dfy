/**
 * Domain.from_list: building a domain back from (path, leaf) entries. Entries
 * are inserted one by one; a path whose first keys are already present goes
 * into the existing sub-domain, otherwise a new key is added at the end, so
 * key order follows the first occurrence of each prefix.
 */
module Assembly {
  import opened Errors
  import opened Domains

  /** Place the leaf s at path p in d (the setdefault walk of from_list). */
  function Insert(d: Domain, p: Path, s: Spec): Result<Domain>
    decreases |p|, d
  {
    if p == [] then Err(SpecificationError)
    else match d
      case Empty =>
        if |p| == 1 then Ok(Entry(p[0], Leaf(s), Empty))
        else (
          match Insert(Empty, p[1..], s)
          case Ok(sd) => Ok(Entry(p[0], Sub(sd), Empty))
          case Err(e) => Err(e))
      case Entry(k, n, rest) =>
        if k != p[0] then (
          match Insert(rest, p, s)
          case Ok(r) => Ok(Entry(k, n, r))
          case Err(e) => Err(e))
        else if |p| == 1 || n.Leaf? then Err(SpecificationError)
        else (
          match Insert(n.domain, p[1..], s)
          case Ok(sd) => Ok(Entry(k, Sub(sd), rest))
          case Err(e) => Err(e))
  }

  /** Insert every entry of es into acc, in order. */
  function Assemble(acc: Domain, es: Flat): Result<Domain>
    decreases |es|
  {
    if es == [] then Ok(acc)
    else match Insert(acc, es[0].0, es[0].1)
      case Ok(a) => Assemble(a, es[1..])
      case Err(e) => Err(e)
  }

  /** Domain.from_list: assemble the entries, then validate the result as the constructor does. */
  function FromList(es: Flat): Result<Domain> {
    match Assemble(Empty, es)
    case Err(e) => Err(e)
    case Ok(d) => if Valid(d) then Ok(d) else Err(SpecificationError)
  }

  /** Every path of es is non-empty and compatible with every leaf already in acc. */
  ghost predicate Fits(acc: Domain, es: Flat) {
    forall i :: 0 <= i < |es| ==>
      es[i].0 != [] && forall q :: LeafAt(acc, q).Some? ==> Compatible(es[i].0, q)
  }

  // ---------------------------------------------------------------------
  // One insertion

  lemma IncompatibleHeads(p: Path, q: Path)
    requires p != [] && q != [] && !Compatible(p, q)
    ensures p[0] == q[0]
  {
    if IsPrefix(p, q) {
      assert q[..|p|][0] == q[0];
    } else {
      assert p[..|q|][0] == p[0];
    }
  }

  lemma {:induction false} InsertKeys(d: Domain, p: Path, s: Spec)
    requires p != [] && Insert(d, p, s).Ok?
    ensures Keys(Insert(d, p, s).value) == Keys(d) + {p[0]}
    ensures DistinctKeys(d) ==> DistinctKeys(Insert(d, p, s).value)
    ensures NoEmptySub(d) ==> NoEmptySub(Insert(d, p, s).value)
    decreases |p|, d
  {
    match d
    case Empty =>
      if |p| > 1 {
        InsertKeys(Empty, p[1..], s);
      }
    case Entry(k, n, rest) =>
      if k != p[0] {
        InsertKeys(rest, p, s);
      } else {
        InsertKeys(n.domain, p[1..], s);
      }
  }

  /** After inserting, p holds s and every other path holds what it held. */
  lemma {:induction false} InsertLeafAt(d: Domain, p: Path, s: Spec, q: Path)
    requires Insert(d, p, s).Ok?
    ensures LeafAt(Insert(d, p, s).value, q) == if q == p then Some(s) else LeafAt(d, q)
    decreases |p|, d
  {
    match d
    case Empty =>
      if |p| > 1 && q != [] && q[0] == p[0] && |q| > 1 {
        InsertLeafAt(Empty, p[1..], s, q[1..]);
        assert q[1..] == p[1..] <==> q == p;
      }
    case Entry(k, n, rest) =>
      if k != p[0] {
        InsertLeafAt(rest, p, s, q);
      } else if q != [] && q[0] == k && |q| > 1 {
        InsertLeafAt(n.domain, p[1..], s, q[1..]);
        assert q[1..] == p[1..] <==> q == p;
      }
  }

  /** A successful insertion met no leaf on a prefix or an extension of p. */
  lemma {:induction false} InsertCompatible(d: Domain, p: Path, s: Spec, q: Path)
    requires Insert(d, p, s).Ok? && LeafAt(d, q).Some?
    ensures Compatible(p, q)
    decreases |p|, d
  {
    match d
    case Entry(k, n, rest) =>
      if q[0] != p[0] {
        HeadsDiffer(p, q);
      } else if k != p[0] {
        InsertCompatible(rest, p, s, q);
      } else {
        InsertCompatible(n.domain, p[1..], s, q[1..]);
        PrefixCons(k, p[1..], q[1..]);
        assert p == [k] + p[1..] && q == [k] + q[1..];
      }
  }

  lemma {:induction false} InsertIntoEmpty(p: Path, s: Spec)
    requires p != []
    ensures Insert(Empty, p, s).Ok?
    decreases |p|
  {
    if |p| > 1 {
      InsertIntoEmpty(p[1..], s);
    }
  }

  /** A failed insertion of a non-empty path names a leaf it conflicts with. */
  lemma {:induction false} InsertConflict(d: Domain, p: Path, s: Spec) returns (q: Path)
    requires NoEmptySub(d) && p != [] && Insert(d, p, s).Err?
    ensures LeafAt(d, q).Some? && !Compatible(p, q)
    decreases |p|, d
  {
    InsertIntoEmpty(p, s);
    var k, n, rest := d.key, d.node, d.rest;
    if k != p[0] {
      q := InsertConflict(rest, p, s);
      IncompatibleHeads(p, q);
    } else if n.Leaf? {
      q := [k];
      assert p[..|q|] == q;
    } else if |p| == 1 {
      var q' := SomeLeaf(n.domain);
      q := [k] + q';
      assert q[1..] == q';
      assert q[..|p|] == p;
    } else {
      var q' := InsertConflict(n.domain, p[1..], s);
      q := [k] + q';
      assert q[1..] == q';
      PrefixCons(k, p[1..], q');
      assert p == [k] + p[1..];
    }
  }

  /** Insertion adds exactly the entry (p, s). */
  lemma InsertEntries(d: Domain, p: Path, s: Spec)
    requires DistinctKeys(d) && p != [] && Insert(d, p, s).Ok?
    ensures DistinctKeys(Insert(d, p, s).value)
    ensures Entries(Insert(d, p, s).value) == Entries(d) + {(p, s)}
  {
    var r := Insert(d, p, s).value;
    InsertKeys(d, p, s);
    forall e
      ensures e in Entries(r) <==> e in Entries(d) || e == (p, s)
    {
      FlattenIsLeafAt(r, e.0, e.1);
      FlattenIsLeafAt(d, e.0, e.1);
      InsertLeafAt(d, p, s, e.0);
      if e.0 == p && LeafAt(d, p).Some? {
        InsertCompatible(d, p, s, p);
      }
    }
  }

  // ---------------------------------------------------------------------
  // A whole list

  /** The leaves after inserting at p: those before, and p, which clashed with none of them. */
  ghost predicate Extends(a: Domain, acc: Domain, p: Path) {
    && p != []
    && (forall q :: LeafAt(a, q).Some? <==> LeafAt(acc, q).Some? || q == p)
    && (forall q :: LeafAt(acc, q).Some? ==> Compatible(p, q))
  }

  lemma InsertExtends(acc: Domain, p: Path, s: Spec)
    requires p != [] && Insert(acc, p, s).Ok?
    ensures Extends(Insert(acc, p, s).value, acc, p)
  {
    forall q ensures LeafAt(Insert(acc, p, s).value, q).Some? <==> LeafAt(acc, q).Some? || q == p {
      InsertLeafAt(acc, p, s, q);
    }
    forall q | LeafAt(acc, q).Some? ensures Compatible(p, q) {
      InsertCompatible(acc, p, s, q);
    }
  }

  lemma FitsForward(acc: Domain, a: Domain, es: Flat)
    requires es != [] && Extends(a, acc, es[0].0)
    requires Fits(acc, es) && PrefixFree(es)
    ensures Fits(a, es[1..]) && PrefixFree(es[1..])
  {
    forall i | 0 <= i < |es[1..]|
      ensures es[1..][i].0 != [] && forall q :: LeafAt(a, q).Some? ==> Compatible(es[1..][i].0, q)
    {
      assert es[1..][i] == es[i + 1];
      forall q | LeafAt(a, q).Some? ensures Compatible(es[i + 1].0, q) {
        if q == es[0].0 {
          assert Compatible(es[i + 1].0, es[0].0);
        }
      }
    }
    forall i, j | 0 <= i < |es[1..]| && 0 <= j < |es[1..]| && i != j
      ensures Compatible(es[1..][i].0, es[1..][j].0)
    {
      assert es[1..][i] == es[i + 1] && es[1..][j] == es[j + 1];
    }
  }

  lemma FitsBackward(acc: Domain, a: Domain, es: Flat)
    requires es != [] && Extends(a, acc, es[0].0)
    requires Fits(a, es[1..]) && PrefixFree(es[1..])
    ensures Fits(acc, es) && PrefixFree(es)
  {
    var p := es[0].0;
    forall i | 0 <= i < |es|
      ensures es[i].0 != [] && forall q :: LeafAt(acc, q).Some? ==> Compatible(es[i].0, q)
    {
      if i > 0 {
        assert es[1..][i - 1] == es[i];
      }
    }
    forall i, j | 0 <= i < |es| && 0 <= j < |es| && i != j
      ensures Compatible(es[i].0, es[j].0)
    {
      if i == 0 {
        assert es[1..][j - 1] == es[j];
        assert LeafAt(a, p).Some?;
      } else if j == 0 {
        assert es[1..][i - 1] == es[i];
        assert LeafAt(a, p).Some?;
      } else {
        assert es[1..][i - 1] == es[i] && es[1..][j - 1] == es[j];
      }
    }
  }

  lemma {:induction false} AssembleFacts(acc: Domain, es: Flat)
    requires DistinctKeys(acc) && NoEmptySub(acc)
    ensures Assemble(acc, es).Ok? <==> Fits(acc, es) && PrefixFree(es)
    ensures Assemble(acc, es).Ok? ==>
      var r := Assemble(acc, es).value;
      DistinctKeys(r) && NoEmptySub(r) && Entries(r) == Entries(acc) + set e | e in es
    decreases |es|
  {
    if es != [] {
      var p, s := es[0].0, es[0].1;
      if p == [] {
      } else if Insert(acc, p, s).Err? {
        var q := InsertConflict(acc, p, s);
        assert !Fits(acc, es);
      } else {
        var a := Insert(acc, p, s).value;
        InsertKeys(acc, p, s);
        InsertEntries(acc, p, s);
        InsertExtends(acc, p, s);
        AssembleFacts(a, es[1..]);
        assert (set e | e in es) == {es[0]} + set e | e in es[1..] by {
          assert es == [es[0]] + es[1..];
        }
        if Fits(acc, es) && PrefixFree(es) {
          FitsForward(acc, a, es);
        }
        if Assemble(a, es[1..]).Ok? {
          FitsBackward(acc, a, es);
        }
      }
    }
  }

  // ---------------------------------------------------------------------
  // from_list

  /** from_list succeeds exactly on non-empty, mutually compatible paths with well-formed leaves. */
  lemma FromListSucceeds(es: Flat)
    ensures FromList(es).Ok? <==>
      PrefixFree(es) && forall i :: 0 <= i < |es| ==> es[i].0 != [] && ValidSpec(es[i].1)
  {
    AssembleFacts(Empty, es);
    if Assemble(Empty, es).Ok? {
      var r := Assemble(Empty, es).value;
      assert Entries(r) == set e | e in es;
      if forall i :: 0 <= i < |es| ==> ValidSpec(es[i].1) {
        forall e | e in Flatten(r) ensures ValidSpec(e.1) {
          assert e in Entries(r);
        }
      } else {
        var i :| 0 <= i < |es| && !ValidSpec(es[i].1);
        assert es[i] in Flatten(r) by {
          assert es[i] in Entries(r);
        }
      }
    }
  }

  /** The domain from_list builds holds exactly the given entries, merged by shared prefixes. */
  lemma FromListEntries(es: Flat)
    requires FromList(es).Ok?
    ensures Valid(FromList(es).value) && NoEmptySub(FromList(es).value)
    ensures Entries(FromList(es).value) == set e | e in es
    ensures forall i :: 0 <= i < |es| ==> LeafAt(FromList(es).value, es[i].0) == Some(es[i].1)
  {
    AssembleFacts(Empty, es);
    var r := FromList(es).value;
    forall i | 0 <= i < |es| ensures LeafAt(r, es[i].0) == Some(es[i].1) {
      assert es[i] in Entries(r);
      FlattenIsLeafAt(r, es[i].0, es[i].1);
    }
  }

  /** Lift(acc, k, r): acc followed by the key k over the domain r. */
  function Lift(acc: Domain, k: string, r: Result<Domain>): Result<Domain> {
    match r
    case Ok(x) => Ok(Concat(acc, Entry(k, Sub(x), Empty)))
    case Err(e) => Err(e)
  }

  lemma {:induction false} InsertFreshLeaf(acc: Domain, k: string, s: Spec)
    requires k !in Keys(acc)
    ensures Insert(acc, [k], s) == Ok(Concat(acc, Entry(k, Leaf(s), Empty)))
  {
    match acc
    case Empty =>
    case Entry(_, _, rest) =>
      InsertFreshLeaf(rest, k, s);
  }

  lemma {:induction false} InsertFreshSub(acc: Domain, k: string, q: Path, s: Spec)
    requires k !in Keys(acc) && q != []
    ensures Insert(acc, [k] + q, s) == Lift(acc, k, Insert(Empty, q, s))
  {
    assert ([k] + q)[1..] == q;
    match acc
    case Empty =>
    case Entry(_, _, rest) =>
      InsertFreshSub(rest, k, q, s);
  }

  lemma {:induction false} InsertUnder(acc: Domain, k: string, y: Domain, q: Path, s: Spec)
    requires k !in Keys(acc)
    ensures Insert(Concat(acc, Entry(k, Sub(y), Empty)), [k] + q, s) == Lift(acc, k, Insert(y, q, s))
  {
    assert ([k] + q)[1..] == q;
    match acc
    case Empty =>
    case Entry(_, _, rest) =>
      InsertUnder(rest, k, y, q, s);
  }

  lemma {:induction false} AssembleUnder(acc: Domain, k: string, y: Domain, es: Flat)
    requires k !in Keys(acc)
    ensures Assemble(Concat(acc, Entry(k, Sub(y), Empty)), Prefixed(k, es)) == Lift(acc, k, Assemble(y, es))
    decreases |es|
  {
    if es != [] {
      assert Prefixed(k, es)[1..] == Prefixed(k, es[1..]);
      InsertUnder(acc, k, y, es[0].0, es[0].1);
      if Insert(y, es[0].0, es[0].1).Ok? {
        AssembleUnder(acc, k, Insert(y, es[0].0, es[0].1).value, es[1..]);
      }
    }
  }

  lemma {:induction false} AssembleConcat(acc: Domain, a: Flat, b: Flat)
    ensures Assemble(acc, a + b) ==
      match Assemble(acc, a)
      case Ok(x) => Assemble(x, b)
      case Err(e) => Err(e)
    decreases |a|
  {
    if a == [] {
      assert a + b == b;
    } else {
      assert (a + b)[0] == a[0];
      assert (a + b)[1..] == a[1..] + b;
      if Insert(acc, a[0].0, a[0].1).Ok? {
        AssembleConcat(Insert(acc, a[0].0, a[0].1).value, a[1..], b);
      }
    }
  }

  lemma NonEmptyFlatten(d: Domain)
    requires DistinctKeys(d) && NoEmptySub(d) && d != Empty
    ensures Flatten(d) != []
  {
    var p := SomeLeaf(d);
    FlattenIsLeafAt(d, p, LeafAt(d, p).value);
  }

  /** Assembling a flattened domain after acc appends the pruned domain to acc. */
  lemma {:induction false} AssembleFlatten(acc: Domain, d: Domain)
    requires DistinctKeys(d) && Keys(acc) !! Keys(d)
    ensures Assemble(acc, Flatten(d)) == Ok(Concat(acc, Prune(d)))
    decreases d
  {
    match d
    case Empty =>
      ConcatFacts(acc, Empty);
      assert Concat(acc, Empty) == acc by {
        ConcatEmpty(acc);
      }
    case Entry(k, n, rest) =>
      var head := if n.Leaf? then [([k], n.spec)] else Prefixed(k, Flatten(n.domain));
      AssembleConcat(acc, head, Flatten(rest));
      match n
      case Leaf(s) =>
        InsertFreshLeaf(acc, k, s);
        var acc' := Concat(acc, Entry(k, Leaf(s), Empty));
        ConcatFacts(acc, Entry(k, Leaf(s), Empty));
        AssembleFlatten(acc', rest);
        ConcatAssoc(acc, Entry(k, Leaf(s), Empty), Prune(rest));
      case Sub(sd) =>
        PruneFacts(sd);
        if Prune(sd) == Empty {
          AssembleFlatten(acc, rest);
        } else {
          NonEmptyFlatten(Prune(sd));
          var l := Flatten(sd);
          FlattenHeads(sd, l[0]);
          InsertFreshSub(acc, k, l[0].0, l[0].1);
          InsertIntoEmpty(l[0].0, l[0].1);
          var y := Insert(Empty, l[0].0, l[0].1).value;
          PrefixedTail(k, l);
          AssembleUnder(acc, k, y, l[1..]);
          AssembleFlatten(Empty, sd);
          ConcatEmptyLeft(Prune(sd));
          var acc' := Concat(acc, Entry(k, Sub(Prune(sd)), Empty));
          ConcatFacts(acc, Entry(k, Sub(Prune(sd)), Empty));
          AssembleFlatten(acc', rest);
          ConcatAssoc(acc, Entry(k, Sub(Prune(sd)), Empty), Prune(rest));
        }
  }

  lemma PrefixedTail(k: string, es: Flat)
    requires es != []
    ensures Prefixed(k, es)[0] == ([k] + es[0].0, es[0].1)
    ensures Prefixed(k, es)[1..] == Prefixed(k, es[1..])
  {
  }

  lemma {:induction false} ConcatEmpty(a: Domain)
    ensures Concat(a, Empty) == a
  {
    match a
    case Empty =>
    case Entry(_, _, rest) =>
      ConcatEmpty(rest);
  }

  lemma ConcatEmptyLeft(a: Domain)
    ensures Concat(Empty, a) == a
  {
  }

  /** from_list inverts flatten: it rebuilds the domain, minus sub-domains without leaves. */
  lemma FromListFlatten(d: Domain)
    requires Valid(d)
    ensures FromList(Flatten(d)) == Ok(Prune(d))
    ensures NoEmptySub(d) ==> FromList(Flatten(d)) == Ok(d)
    ensures Flatten(FromList(Flatten(d)).value) == Flatten(d)
  {
    AssembleFlatten(Empty, d);
    PruneFacts(d);
  }

  /** Every failure of from_list is a DomainSpecificationError. */
  lemma {:induction false} InsertErrKind(d: Domain, p: Path, s: Spec)
    ensures Insert(d, p, s).Err? ==> Insert(d, p, s).error == SpecificationError
    decreases |p|, d
  {
    if p != [] {
      match d
      case Empty =>
        if |p| > 1 {
          InsertErrKind(Empty, p[1..], s);
        }
      case Entry(k, n, rest) =>
        if k != p[0] {
          InsertErrKind(rest, p, s);
        } else if |p| > 1 && n.Sub? {
          InsertErrKind(n.domain, p[1..], s);
        }
    }
  }

  lemma {:induction false} FromListErrKind(es: Flat)
    ensures FromList(es).Err? ==> FromList(es).error == SpecificationError
  {
    AssembleErrKind(Empty, es);
  }

  lemma {:induction false} AssembleErrKind(acc: Domain, es: Flat)
    ensures Assemble(acc, es).Err? ==> Assemble(acc, es).error == SpecificationError
    decreases |es|
  {
    if es != [] {
      InsertErrKind(acc, es[0].0, es[0].1);
      if Insert(acc, es[0].0, es[0].1).Ok? {
        AssembleErrKind(Insert(acc, es[0].0, es[0].1).value, es[1..]);
      }
    }
  }

  lemma PrefixFreeConcat(x: Flat, y: Flat)
    ensures PrefixFree(x + y) <==>
      PrefixFree(x) && PrefixFree(y) &&
      forall e, f :: e in x && f in y ==> Compatible(e.0, f.0)
  {
    var z := x + y;
    if PrefixFree(x) && PrefixFree(y) && forall e, f :: e in x && f in y ==> Compatible(e.0, f.0) {
      forall i, j | 0 <= i < |z| && 0 <= j < |z| && i != j ensures Compatible(z[i].0, z[j].0) {
        if i < |x| && j >= |x| {
          assert z[i] == x[i] && z[j] == y[j - |x|];
          assert x[i] in x && y[j - |x|] in y;
        } else if i >= |x| && j < |x| {
          assert z[j] == x[j] && z[i] == y[i - |x|];
          assert x[j] in x && y[i - |x|] in y;
        } else if i < |x| {
          assert z[i] == x[i] && z[j] == x[j];
        } else {
          assert z[i] == y[i - |x|] && z[j] == y[j - |x|];
        }
      }
    }
    if PrefixFree(z) {
      forall i, j | 0 <= i < |x| && 0 <= j < |x| && i != j ensures Compatible(x[i].0, x[j].0) {
        assert z[i] == x[i] && z[j] == x[j];
      }
      forall i, j | 0 <= i < |y| && 0 <= j < |y| && i != j ensures Compatible(y[i].0, y[j].0) {
        assert z[|x| + i] == y[i] && z[|x| + j] == y[j];
      }
      forall e, f | e in x && f in y ensures Compatible(e.0, f.0) {
        var i :| 0 <= i < |x| && x[i] == e;
        var j :| 0 <= j < |y| && y[j] == f;
        assert z[i] == x[i] && z[|x| + j] == y[j];
      }
    }
  }
}
