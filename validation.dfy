/**
 * The Domain constructor on a raw nested mapping, and the projections back to
 * that mapping: as_dict, serialise and deserialise.
 */
module Validation {
  import opened Errors
  import opened Domains
  import opened Algebra

  /** A Python value as it may stand in the nested mapping handed to Domain(...). */
  datatype Raw =
    | RDict(items: RawDict)
    | RSet(members: set<Lit>)
    | RSeq(elems: seq<Raw>)
    | RScalar(lit: Lit)
    | RCallable

  /** A Python dict, in insertion order. */
  datatype RawDict = RNil | RCons(key: Lit, value: Raw, tail: RawDict)

  /** A value the grammar accepts as a leaf: a non-empty set, or [low, high] of numbers with low <= high. */
  predicate LeafShape(v: Raw) {
    match v
    case RSet(vs) => vs != {}
    case RSeq(es) =>
      |es| == 2 && es[0].RScalar? && es[1].RScalar? &&
      ValidSpec(Range(es[0].lit, es[1].lit))
    case _ => false
  }

  /** Validate a value under a key: recurse into a dict, accept a leaf shape, reject anything else. */
  function ValidateValue(v: Raw): Result<Node> {
    match v
    case RDict(m) =>
      (match ValidateDict(m)
       case Ok(d) => Ok(Sub(d))
       case Err(e) => Err(e))
    case RSet(vs) => if LeafShape(v) then Ok(Leaf(Finite(vs))) else Err(SpecificationError)
    case RSeq(es) =>
      if LeafShape(v) then Ok(Leaf(Range(es[0].lit, es[1].lit))) else Err(SpecificationError)
    case RScalar(_) => Err(SpecificationError)
    case RCallable => Err(SpecificationError)
  }

  /** Validate a dict: every key a string, every value valid. */
  function ValidateDict(m: RawDict): Result<Domain> {
    match m
    case RNil => Ok(Empty)
    case RCons(k, v, t) =>
      if !k.Str? then Err(SpecificationError)
      else match ValidateValue(v)
        case Err(e) => Err(e)
        case Ok(n) =>
          match ValidateDict(t)
          case Err(e) => Err(e)
          case Ok(r) => Ok(Entry(k.s, n, r))
  }

  /** Domain(x) on a non-text value: x must be a mapping. */
  function Construct(x: Raw): Result<Domain> {
    match x
    case RDict(m) => ValidateDict(m)
    case _ => Err(SpecificationError)
  }

  function AsRaw(n: Node): Raw {
    match n
    case Leaf(Range(lo, hi)) => RSeq([RScalar(lo), RScalar(hi)])
    case Leaf(Finite(vs)) => RSet(vs)
    case Sub(d) => RDict(AsDict(d))
  }

  /** Domain.as_dict: the nested mapping, ranges as two-element lists and sets as sets. */
  function AsDict(d: Domain): RawDict {
    match d
    case Empty => RNil
    case Entry(k, n, rest) => RCons(Str(k), AsRaw(n), AsDict(rest))
  }

  /** Domain.serialise, stated over the literal value rather than its text. */
  function Serialise(d: Domain): Raw {
    RDict(AsDict(d))
  }

  /** Domain.deserialise, stated over the literal value rather than its text. */
  function Deserialise(x: Raw): Result<Domain> {
    Construct(x)
  }

  function RawDictKeys(m: RawDict): set<Lit> {
    match m
    case RNil => {}
    case RCons(k, _, t) => {k} + RawDictKeys(t)
  }

  /** Keys are distinct on every level, as in any Python dict. */
  predicate RawDistinct(m: RawDict) {
    match m
    case RNil => true
    case RCons(k, v, t) =>
      k !in RawDictKeys(t) && (v.RDict? ==> RawDistinct(v.items)) && RawDistinct(t)
  }

  /** Every key of m, at any depth of nested dicts. */
  function AllKeys(m: RawDict): set<Lit> {
    match m
    case RNil => {}
    case RCons(k, v, t) => {k} + (if v.RDict? then AllKeys(v.items) else {}) + AllKeys(t)
  }

  /** Every value of m that is not itself a dict, at any depth. */
  function AllLeaves(m: RawDict): set<Raw> {
    match m
    case RNil => {}
    case RCons(_, v, t) => (if v.RDict? then AllLeaves(v.items) else {v}) + AllLeaves(t)
  }

  // ---------------------------------------------------------------------

  /** The constructor accepts m exactly when all keys are strings and all leaves have a leaf shape. */
  lemma {:induction false} ValidateAccepts(m: RawDict)
    ensures ValidateDict(m).Ok? <==>
      (forall k :: k in AllKeys(m) ==> k.Str?) && (forall v :: v in AllLeaves(m) ==> LeafShape(v))
  {
    match m
    case RNil =>
    case RCons(k, v, t) =>
      ValidateAccepts(t);
      if v.RDict? {
        ValidateAccepts(v.items);
        assert ValidateValue(v).Ok? <==> ValidateDict(v.items).Ok?;
        assert AllKeys(m) == {k} + AllKeys(v.items) + AllKeys(t);
        assert AllLeaves(m) == AllLeaves(v.items) + AllLeaves(t);
      } else {
        assert ValidateValue(v).Ok? <==> LeafShape(v);
        assert AllKeys(m) == {k} + AllKeys(t);
        assert AllLeaves(m) == {v} + AllLeaves(t);
      }
  }

  /** as_dict(Domain(m)) == m, and the domain built is valid. */
  lemma {:induction false} AsDictOfValidate(m: RawDict)
    requires ValidateDict(m).Ok?
    ensures AsDict(ValidateDict(m).value) == m
    ensures Keys(ValidateDict(m).value) == set k | k in RawDictKeys(m) && k.Str? :: k.s
    ensures RawDistinct(m) ==> Valid(ValidateDict(m).value)
  {
    match m
    case RCons(k, v, t) =>
      AsDictOfValidate(t);
      var d := ValidateDict(m).value;
      if v.RDict? {
        AsDictOfValidate(v.items);
      }
      if RawDistinct(m) {
        assert k.s !in Keys(d.rest);
        ValidEntry(k.s, d.node, d.rest);
      }
    case RNil =>
  }

  /** Domain(d.as_dict()) rebuilds d exactly. */
  lemma {:induction false} ValidateOfAsDict(d: Domain)
    requires Valid(d)
    ensures ValidateDict(AsDict(d)) == Ok(d)
  {
    match d
    case Empty =>
    case Entry(k, n, rest) =>
      ValidParts(k, n, rest);
      ValidateOfAsDict(rest);
      if n.Sub? {
        ValidateOfAsDict(n.domain);
      }
  }

  /** Every rejection by the constructor is a DomainSpecificationError. */
  lemma {:induction false} ValidateErrKind(m: RawDict)
    ensures ValidateDict(m).Err? ==> ValidateDict(m).error == SpecificationError
  {
    match m
    case RNil =>
    case RCons(k, v, t) =>
      ValidateErrKind(t);
      if v.RDict? {
        ValidateErrKind(v.items);
      }
  }

  /** Domain(x) on a value that is not a valid mapping raises DomainSpecificationError. */
  lemma ConstructErrKind(x: Raw)
    ensures Construct(x).Err? ==> Construct(x).error == SpecificationError
  {
    if x.RDict? {
      ValidateErrKind(x.items);
    }
  }

  /** Swapping the first two keys of a mapping builds an equal domain; the two lemmas after it carry the swap to any position and depth. */
  lemma RawKeyOrder(k1: Lit, v1: Raw, k2: Lit, v2: Raw, t: RawDict)
    ensures ValidateDict(RCons(k1, v1, RCons(k2, v2, t))).Ok? <==> ValidateDict(RCons(k2, v2, RCons(k1, v1, t))).Ok?
    ensures ValidateDict(RCons(k1, v1, RCons(k2, v2, t))).Ok? ==>
      Equal(ValidateDict(RCons(k1, v1, RCons(k2, v2, t))).value, ValidateDict(RCons(k2, v2, RCons(k1, v1, t))).value)
  {
    var a, b := RCons(k1, v1, RCons(k2, v2, t)), RCons(k2, v2, RCons(k1, v1, t));
    var parts := k1.Str? && k2.Str? && ValidateValue(v1).Ok? && ValidateValue(v2).Ok? && ValidateDict(t).Ok?;
    assert ValidateDict(a).Ok? <==> parts;
    assert ValidateDict(b).Ok? <==> parts;
    if parts {
      var n1, n2, r := ValidateValue(v1).value, ValidateValue(v2).value, ValidateDict(t).value;
      assert ValidateDict(a).value == Entry(k1.s, n1, Entry(k2.s, n2, r));
      assert ValidateDict(b).value == Entry(k2.s, n2, Entry(k1.s, n1, r));
      EqualIgnoresKeyOrder(k1.s, n1, k2.s, n2, r);
    }
  }

  /** Both mappings are rejected, or both are accepted and build equal domains. */
  predicate SameDomain(m1: RawDict, m2: RawDict) {
    ValidateDict(m1).Ok? == ValidateDict(m2).Ok? &&
    (ValidateDict(m1).Ok? ==> Equal(ValidateDict(m1).value, ValidateDict(m2).value))
  }

  /** Mappings that agree on their first entry and build the same domain after it build the same domain. */
  lemma RawSameInRest(k: Lit, v: Raw, t1: RawDict, t2: RawDict)
    requires SameDomain(t1, t2)
    ensures SameDomain(RCons(k, v, t1), RCons(k, v, t2))
  {
    if ValidateDict(RCons(k, v, t1)).Ok? {
      EqualInRest(k.s, ValidateValue(v).value, ValidateDict(t1).value, ValidateDict(t2).value);
    }
  }

  /** Replacing a nested mapping by one that builds the same domain builds the same domain. */
  lemma RawSameUnderKey(k: Lit, m1: RawDict, m2: RawDict, t: RawDict)
    requires SameDomain(m1, m2)
    ensures SameDomain(RCons(k, RDict(m1), t), RCons(k, RDict(m2), t))
  {
    if ValidateDict(RCons(k, RDict(m1), t)).Ok? {
      assert ValidateValue(RDict(m1)).Ok?;
      EqualUnderKey(k.s, ValidateDict(m1).value, ValidateDict(m2).value, ValidateDict(t).value);
    }
  }

  /** deserialise(serialise(d)) == d. */
  lemma SerialiseRoundTrip(d: Domain)
    requires Valid(d)
    ensures Deserialise(Serialise(d)) == Ok(d)
  {
    ValidateOfAsDict(d);
  }
}
