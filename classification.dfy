/** Domain.split_by_type: the leaves partitioned into discrete, categorical and continuous domains. */
module Classification {
  import opened Errors
  import opened Domains
  import opened Algebra

  datatype Kind = Discrete | Categorical | Continuous

  /** A list is continuous; a set of integers only is discrete; any other set is categorical. */
  function KindOf(s: Spec): Kind {
    match s
    case Range(_, _) => Continuous
    case Finite(vs) => if forall l :: l in vs ==> l.Int? then Discrete else Categorical
  }

  /** The leaves of d of kind c at their paths; sub-domains left without leaves are dropped. */
  function Select(d: Domain, c: Kind): Domain {
    match d
    case Empty => Empty
    case Entry(k, Leaf(s), rest) =>
      if KindOf(s) == c then Entry(k, Leaf(s), Select(rest, c)) else Select(rest, c)
    case Entry(k, Sub(sd), rest) =>
      var x := Select(sd, c);
      if x == Empty then Select(rest, c) else Entry(k, Sub(x), Select(rest, c))
  }

  /** Domain.split_by_type: (discrete, categorical, continuous). */
  function SplitByType(d: Domain): (Domain, Domain, Domain) {
    (Select(d, Discrete), Select(d, Categorical), Select(d, Continuous))
  }

  /** Python's sum(ds, start): start + ds[0] + ds[1] + ..., left to right. */
  function Sum(ds: seq<Domain>, start: Domain): Result<Domain>
    decreases |ds|
  {
    if ds == [] then Ok(start)
    else match Add(start, ds[0])
      case Ok(s) => Sum(ds[1..], s)
      case Err(e) => Err(e)
  }

  /** The entries of kind c, in order. */
  function Filter(es: Flat, c: Kind): Flat {
    if es == [] then []
    else (if KindOf(es[0].1) == c then [es[0]] else []) + Filter(es[1..], c)
  }

  // ---------------------------------------------------------------------

  lemma {:induction false} FilterMember(es: Flat, c: Kind, e: (Path, Spec))
    ensures e in Filter(es, c) <==> e in es && KindOf(e.1) == c
  {
    if es != [] {
      FilterMember(es[1..], c, e);
      assert es == [es[0]] + es[1..];
    }
  }

  lemma {:induction false} FilterConcat(a: Flat, b: Flat, c: Kind)
    ensures Filter(a + b, c) == Filter(a, c) + Filter(b, c)
    decreases |a|
  {
    if a == [] {
      assert a + b == b;
    } else {
      var h := if KindOf(a[0].1) == c then [a[0]] else [];
      assert (a + b)[0] == a[0];
      assert (a + b)[1..] == a[1..] + b;
      assert Filter(a + b, c) == h + Filter(a[1..] + b, c);
      FilterConcat(a[1..], b, c);
      assert h + (Filter(a[1..], c) + Filter(b, c)) == (h + Filter(a[1..], c)) + Filter(b, c);
    }
  }

  lemma {:induction false} FilterPrefixed(k: string, es: Flat, c: Kind)
    ensures Filter(Prefixed(k, es), c) == Prefixed(k, Filter(es, c))
  {
    if es != [] {
      assert Prefixed(k, es)[1..] == Prefixed(k, es[1..]);
      FilterPrefixed(k, es[1..], c);
      var h := if KindOf(es[0].1) == c then [es[0]] else [];
      PrefixedConcat(k, h, Filter(es[1..], c));
    }
  }

  /** Selecting a kind flattens to the entries of that kind, in their original order. */
  lemma {:induction false} SelectFlatten(d: Domain, c: Kind)
    ensures Flatten(Select(d, c)) == Filter(Flatten(d), c)
  {
    match d
    case Empty =>
    case Entry(k, n, rest) =>
      SelectFlatten(rest, c);
      match n
      case Leaf(s) =>
        FilterConcat([([k], s)], Flatten(rest), c);
      case Sub(sd) =>
        SelectFlatten(sd, c);
        FilterConcat(Prefixed(k, Flatten(sd)), Flatten(rest), c);
        FilterPrefixed(k, Flatten(sd), c);
  }

  lemma {:induction false} SelectShape(d: Domain, c: Kind)
    ensures Keys(Select(d, c)) <= Keys(d)
    ensures DistinctKeys(d) ==> DistinctKeys(Select(d, c))
    ensures NoEmptySub(Select(d, c))
  {
    match d
    case Empty =>
    case Entry(k, n, rest) =>
      SelectShape(rest, c);
      if n.Sub? {
        SelectShape(n.domain, c);
      }
  }

  /** Each part holds exactly the leaves of its kind, and is a valid domain. */
  lemma SelectEntries(d: Domain, c: Kind)
    requires Valid(d)
    ensures Valid(Select(d, c)) && NoEmptySub(Select(d, c))
    ensures Entries(Select(d, c)) == set e | e in Entries(d) && KindOf(e.1) == c
  {
    SelectShape(d, c);
    SelectFlatten(d, c);
    forall e ensures e in Flatten(Select(d, c)) <==> e in Flatten(d) && KindOf(e.1) == c {
      FilterMember(Flatten(d), c, e);
    }
  }

  /** Two different leaves of one valid domain lie on compatible paths. */
  lemma EntriesCompatible(d: Domain, e: (Path, Spec), f: (Path, Spec))
    requires DistinctKeys(d) && e in Entries(d) && f in Entries(d) && e != f
    ensures Compatible(e.0, f.0)
  {
    FlattenIsLeafAt(d, e.0, e.1);
    FlattenIsLeafAt(d, f.0, f.1);
    if e.0 != f.0 {
      LeavesCompatible(d, e.0, f.0);
    }
  }

  /** Parts of d holding leaves of different kinds can be added. */
  lemma KindsCanAdd(d: Domain, x: Domain, y: Domain, cx: set<Kind>, cy: set<Kind>)
    requires DistinctKeys(d) && cx !! cy
    requires forall e :: e in Entries(x) ==> e in Entries(d) && KindOf(e.1) in cx
    requires forall e :: e in Entries(y) ==> e in Entries(d) && KindOf(e.1) in cy
    ensures CanAdd(x, y)
  {
    forall e, f | e in Entries(x) && f in Entries(y) ensures Compatible(e.0, f.0) {
      EntriesCompatible(d, e, f);
    }
  }

  /** The discrete and categorical parts of d add up to its non-continuous leaves. */
  lemma FirstTwoParts(d: Domain)
    requires Valid(d)
    ensures Add(Select(d, Discrete), Select(d, Categorical)).Ok?
    ensures Valid(Add(Select(d, Discrete), Select(d, Categorical)).value)
    ensures Entries(Add(Select(d, Discrete), Select(d, Categorical)).value)
      == set e | e in Entries(d) && KindOf(e.1) != Continuous
  {
    var x, y := Select(d, Discrete), Select(d, Categorical);
    SelectEntries(d, Discrete);
    SelectEntries(d, Categorical);
    KindsCanAdd(d, x, y, {Discrete}, {Categorical});
    AddSucceeds(x, y);
    AddEntries(x, y);
  }

  /** Adding the continuous part restores every leaf of d. */
  lemma LastPart(d: Domain, xy: Domain)
    requires Valid(d) && Valid(xy)
    requires Entries(xy) == set e | e in Entries(d) && KindOf(e.1) != Continuous
    ensures Add(xy, Select(d, Continuous)).Ok?
    ensures Equal(Add(xy, Select(d, Continuous)).value, d)
  {
    var z := Select(d, Continuous);
    SelectEntries(d, Continuous);
    KindsCanAdd(d, xy, z, {Discrete, Categorical}, {Continuous});
    AddSucceeds(xy, z);
    AddEntries(xy, z);
  }

  /** sum(d.split_by_type(), Domain({})) == d. */
  lemma SplitSumsBack(d: Domain)
    requires Valid(d)
    ensures Sum([SplitByType(d).0, SplitByType(d).1, SplitByType(d).2], Empty).Ok?
    ensures Equal(Sum([SplitByType(d).0, SplitByType(d).1, SplitByType(d).2], Empty).value, d)
  {
    var (x, y, z) := SplitByType(d);
    SelectEntries(d, Discrete);
    AddEmptyLeft(x);
    PruneFacts(x);
    FirstTwoParts(d);
    var xy := Add(x, y).value;
    LastPart(d, xy);
    var s := [x, y, z];
    assert s[1..] == [y, z] && s[1..][1..] == [z] && s[1..][1..][1..] == [];
    assert Sum(s, Empty) == Sum([y, z], x);
    assert Sum([y, z], x) == Sum([z], xy);
  }
}
