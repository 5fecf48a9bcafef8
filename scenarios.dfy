/** The behaviours exercised by the Domain test suite, stated on its own example domains. */
module Scenarios {
  import opened Errors
  import opened Domains
  import opened Assembly
  import opened Algebra
  import opened Validation
  import opened Enumeration
  import opened Classification

  function Pair(lo: Lit, hi: Lit): Raw {
    RSeq([RScalar(lo), RScalar(hi)])
  }

  /** {"c": [0, 0.1]} as the tail shared by the constructor examples. */
  function CTail(): RawDict {
    RCons(Str("c"), Pair(Int(0), Real(0.1)), RNil)
  }

  /** A non-string key, a four-element tuple and a callable are each rejected. */
  lemma RejectedSpecifications()
    ensures Construct(RDict(RCons(Int(1), RDict(RCons(Str("b"), Pair(Int(2), Int(3)), RNil)), CTail())))
      == Err(SpecificationError)
    ensures Construct(RDict(RCons(Str("a"), RDict(RCons(Str("b"),
      RSeq([RScalar(Int(1)), RScalar(Int(2)), RScalar(Int(3)), RScalar(Int(4))]), RNil)), CTail())))
      == Err(SpecificationError)
    ensures Construct(RDict(RCons(Str("a"), RDict(RCons(Str("b"), RCallable, RNil)), CTail())))
      == Err(SpecificationError)
  {
  }

  /** {"a": {"b": {0, 1}}, "c": [0, 0.1]} is accepted. */
  lemma AcceptedSpecification()
    ensures Construct(RDict(RCons(Str("a"), RDict(RCons(Str("b"), RSet({Int(0), Int(1)}), RNil)), CTail())))
      == Ok(Entry("a", Sub(Entry("b", Leaf(Finite({Int(0), Int(1)})), Empty)),
                  Entry("c", Leaf(Range(Int(0), Real(0.1))), Empty)))
  {
  }

  /** test_flatten: one entry per leaf, path and spec, depth first. */
  lemma FlattenExample()
    ensures Flatten(Entry("a", Sub(Entry("b", Leaf(Range(Int(0), Int(1))), Empty)),
                    Entry("c", Leaf(Range(Int(0), Real(0.1))), Empty)))
      == [(["a", "b"], Range(Int(0), Int(1))), (["c"], Range(Int(0), Real(0.1)))]
  {
    var b := Entry("b", Leaf(Range(Int(0), Int(1))), Empty);
    assert Flatten(b) == [(["b"], Range(Int(0), Int(1)))];
    assert ["a"] + ["b"] == ["a", "b"];
    assert Prefixed("a", Flatten(b))[0] == (["a", "b"], Range(Int(0), Int(1)));
  }

  /** test_as_dict: as_dict gives back the mapping the domain was built from. */
  lemma AsDictExample()
    ensures var m := RCons(Str("a"), RDict(RCons(Str("b"), Pair(Int(2), Int(3)), RNil)), CTail());
      ValidateDict(m).Ok? && AsDict(ValidateDict(m).value) == m
  {
  }

  // test_addition

  const Ints123: Spec := Finite({Int(1), Int(2), Int(3)})
  const Opts: Spec := Finite({Str("o1"), Str("o2")})
  const Ints345: Spec := Finite({Int(3), Int(4), Int(5)})
  const D1: Domain := Entry("a", Leaf(Range(Int(1), Int(2))), Entry("b", Sub(Entry("c", Leaf(Ints123), Empty)), Empty))
  const D2: Domain := Entry("b", Sub(Entry("d", Leaf(Opts), Empty)), Empty)
  const D3: Domain := Entry("e", Leaf(Ints345), Empty)
  const DAll: Domain :=
    Entry("a", Leaf(Range(Int(1), Int(2))),
    Entry("b", Sub(Entry("c", Leaf(Ints123), Entry("d", Leaf(Opts), Empty))),
    Entry("e", Leaf(Ints345), Empty)))

  lemma AdditionFlattens()
    ensures Flatten(D1) == [(["a"], Range(Int(1), Int(2))), (["b", "c"], Ints123)]
    ensures Flatten(D2) == [(["b", "d"], Opts)]
    ensures Flatten(D3) == [(["e"], Ints345)]
    ensures Entries(DAll) == Entries(D1) + Entries(D2) + Entries(D3)
  {
    assert ["b"] + ["c"] == ["b", "c"];
    assert ["b"] + ["d"] == ["b", "d"];
    assert Prefixed("b", [(["c"], Ints123)]) == [(["b", "c"], Ints123)];
    assert Prefixed("b", [(["d"], Opts)]) == [(["b", "d"], Opts)];
    assert Flatten(Entry("c", Leaf(Ints123), Entry("d", Leaf(Opts), Empty))) == [(["c"], Ints123), (["d"], Opts)];
    assert Prefixed("b", [(["c"], Ints123), (["d"], Opts)]) == [(["b", "c"], Ints123), (["b", "d"], Opts)];
  }

  lemma AdditionOperandsValid()
    ensures Valid(D1) && Valid(D2) && Valid(D3)
  {
    AdditionFlattens();
  }

  lemma AdditionCompatible(d12: Domain)
    requires Entries(d12) == Entries(D1) + Entries(D2)
    ensures CanAdd(D1, D2) && CanAdd(d12, D3)
  {
    AdditionFlattens();
    assert Entries(D1) == {(["a"], Range(Int(1), Int(2))), (["b", "c"], Ints123)};
    assert Entries(D2) == {(["b", "d"], Opts)};
    assert Entries(D3) == {(["e"], Ints345)};
    assert "c" != "d" by { assert "c"[0] != "d"[0]; }
    assert ["b", "d"][..2] != ["b", "c"] by { assert ["b", "d"][..2][1] == "d"; }
    assert Compatible(["a"], ["b", "d"]) && Compatible(["b", "c"], ["b", "d"]);
    assert Compatible(["a"], ["e"]) && Compatible(["b", "c"], ["e"]) && Compatible(["b", "d"], ["e"]);
  }

  /** domain_1 + domain_2 + domain_3 == domain_all, and domain_1 + domain_1 raises ValueError. */
  lemma AdditionExample()
    ensures Add(D1, D2).Ok? && Add(Add(D1, D2).value, D3).Ok?
    ensures Equal(Add(Add(D1, D2).value, D3).value, DAll)
    ensures Add(D1, D1) == Err(ValueError)
  {
    AdditionFlattens();
    AdditionOperandsValid();
    AdditionCompatible(Entry("a", Leaf(Range(Int(1), Int(2))), Entry("b", Sub(Entry("c", Leaf(Ints123), Empty)),
      Entry("b", Sub(Entry("d", Leaf(Opts), Empty)), Empty))));
    AddSucceeds(D1, D2);
    AddEntries(D1, D2);
    var d12 := Add(D1, D2).value;
    AdditionCompatible(d12);
    AddSucceeds(d12, D3);
    AddEntries(d12, D3);
    AddSelfFails(D1);
  }

  // test_from_list

  const FromListInput: Flat := [
    (["a", "b"], Finite({Int(2), Int(3), Int(4)})),
    (["c"], Finite({Int(0), Real(0.1)})),
    (["d", "e", "f"], Finite({Int(0), Int(1)})),
    (["d", "g"], Finite({Int(2), Int(3)}))]
  const FromListDomain: Domain :=
    Entry("a", Sub(Entry("b", Leaf(Finite({Int(2), Int(3), Int(4)})), Empty)),
    Entry("c", Leaf(Finite({Int(0), Real(0.1)})),
    Entry("d", Sub(Entry("e", Sub(Entry("f", Leaf(Finite({Int(0), Int(1)})), Empty)),
                   Entry("g", Leaf(Finite({Int(2), Int(3)})), Empty))),
    Empty)))

  lemma FromListDomainFlattens()
    ensures Flatten(FromListDomain) == FromListInput
  {
    var ef := Entry("f", Leaf(Finite({Int(0), Int(1)})), Empty);
    var dg := Entry("e", Sub(ef), Entry("g", Leaf(Finite({Int(2), Int(3)})), Empty));
    assert ["e"] + ["f"] == ["e", "f"] && ["d"] + ["e", "f"] == ["d", "e", "f"];
    assert ["d"] + ["g"] == ["d", "g"] && ["a"] + ["b"] == ["a", "b"];
    assert Flatten(dg) == [(["e", "f"], Finite({Int(0), Int(1)})), (["g"], Finite({Int(2), Int(3)}))];
    assert Prefixed("d", Flatten(dg)) == [(["d", "e", "f"], Finite({Int(0), Int(1)})), (["d", "g"], Finite({Int(2), Int(3)}))];
    assert Prefixed("a", [(["b"], Finite({Int(2), Int(3), Int(4)}))]) == [(["a", "b"], Finite({Int(2), Int(3), Int(4)}))];
  }

  /** from_list(lst) == domain_true, and lst is domain_true's flattening in order. */
  lemma FromListExample()
    ensures FromList(FromListInput) == Ok(FromListDomain)
    ensures Flatten(FromListDomain) == FromListInput
  {
    FromListDomainFlattens();
    assert Valid(FromListDomain);
    FromListFlatten(FromListDomain);
  }

  // test_iter

  /** Iterating a domain with a continuous leaf raises DomainNotIterableError. */
  lemma IterateRangeFails()
    ensures Iterate(Entry("a", Sub(Entry("b", Leaf(Finite({Int(2), Int(3), Int(4)})), Empty)),
                    Entry("c", Leaf(Range(Int(0), Real(0.1))), Empty)))
      == Err(NotIterableError)
  {
  }

  const DiscreteDomain: Domain :=
    Entry("a", Sub(
      Entry("b", Leaf(Finite({Int(2), Int(3), Int(4)})),
      Entry("j", Sub(
        Entry("d", Leaf(Finite({Int(5), Int(6)})),
        Entry("f", Sub(Entry("g", Leaf(Finite({Int(7)})), Empty)), Empty))),
      Empty))),
    Entry("c", Leaf(Finite({Str("op1"), Real(0.1)})), Empty))

  /** The discrete test domain yields exactly 3 * 2 * 1 * 2 = 12 samples, each conforming to it. */
  lemma IterateDiscreteExample()
    ensures Iterate(DiscreteDomain).Ok?
    ensures |Iterate(DiscreteDomain).value| == 12
    ensures forall smp :: smp in Iterate(DiscreteDomain).value ==> Conforms(smp, DiscreteDomain)
  {
    var g := Entry("g", Leaf(Finite({Int(7)})), Empty);
    var j := Entry("d", Leaf(Finite({Int(5), Int(6)})), Entry("f", Sub(g), Empty));
    var a := Entry("b", Leaf(Finite({Int(2), Int(3), Int(4)})), Entry("j", Sub(j), Empty));
    assert ["f"] + ["g"] == ["f", "g"] && ["j"] + ["d"] == ["j", "d"] && ["j"] + ["f", "g"] == ["j", "f", "g"];
    assert ["a"] + ["b"] == ["a", "b"] && ["a"] + ["j", "d"] == ["a", "j", "d"];
    assert ["a"] + ["j", "f", "g"] == ["a", "j", "f", "g"];
    assert Flatten(j) == [(["d"], Finite({Int(5), Int(6)})), (["f", "g"], Finite({Int(7)}))];
    assert Flatten(a) == [(["b"], Finite({Int(2), Int(3), Int(4)})), (["j", "d"], Finite({Int(5), Int(6)})),
                          (["j", "f", "g"], Finite({Int(7)}))];
    var fl := Flatten(DiscreteDomain);
    assert fl == [(["a", "b"], Finite({Int(2), Int(3), Int(4)})),
      (["a", "j", "d"], Finite({Int(5), Int(6)})), (["a", "j", "f", "g"], Finite({Int(7)})),
      (["c"], Finite({Str("op1"), Real(0.1)}))];
    assert |{Int(2), Int(3), Int(4)}| == 3 && |{Int(5), Int(6)}| == 2 && |{Int(7)}| == 1;
    assert |{Str("op1"), Real(0.1)}| == 2;
    assert fl[4..] == [];
    assert Combinations(fl[3..]) == 2 * Combinations(fl[4..]);
    assert Combinations(fl[2..]) == 1 * Combinations(fl[3..]);
    assert Combinations(fl[1..]) == 2 * Combinations(fl[2..]);
    assert Combinations(fl) == 3 * Combinations(fl[1..]);
    HasRangeIffRangeLeaf(DiscreteDomain);
    ProductSize(DiscreteDomain);
    forall smp | smp in Product(DiscreteDomain) ensures Conforms(smp, DiscreteDomain) {
      ProductIsConforming(DiscreteDomain, smp);
    }
  }

  // test_split_by_type

  const SplitDomain: Domain :=
    Entry("x", Leaf(Range(Int(1), Int(2))),
    Entry("y", Leaf(Finite({Int(-3), Int(2), Int(5)})),
    Entry("z", Leaf(Finite({Str("small"), Int(1), Real(0.1)})), Empty)))

  /** The three parts of the test domain, and their sum from Domain({}) equals it. */
  lemma SplitExample()
    ensures SplitByType(SplitDomain) ==
      (Entry("y", Leaf(Finite({Int(-3), Int(2), Int(5)})), Empty),
       Entry("z", Leaf(Finite({Str("small"), Int(1), Real(0.1)})), Empty),
       Entry("x", Leaf(Range(Int(1), Int(2))), Empty))
    ensures var (x, y, z) := SplitByType(SplitDomain);
      Sum([x, y, z], Empty).Ok? && Equal(Sum([x, y, z], Empty).value, SplitDomain)
  {
    assert !Str("small").Int? && Str("small") in {Str("small"), Int(1), Real(0.1)};
    assert Valid(SplitDomain);
    SplitSumsBack(SplitDomain);
  }
}
