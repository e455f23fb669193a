/** Element validators of ArrayRules: the closures that run over the encoded
    elements of a sequence, their composition, and what the composition accepts. */
module Validators {
  import opened ByteStrings

  /** The four validation bits of ArrayValidationMode. */
  datatype Mode = Mode(noDups: bool, lexical: bool, oneOfEachByte: bool, oneOfEachUint32: bool)

  /** Encoded elements reach a validator from the writer or from the reader. The
      writer's empty encodings are nil slices, the reader's are empty slices of
      its source, and the validators treat a nil "previous" as "none so far". */
  datatype Side = Writer | Reader

  /** What the closures capture: the previous element, the elements seen, and the
      type prefixes seen by each of the two type validators. */
  datatype State = State(prev: Option<Bytes>, seen: set<Bytes>, types8: set<nat>, types32: set<nat>)

  const Start := State(None, {}, {}, {})

  function Remember(side: Side, next: Bytes): (prev: Option<Bytes>)
  {
    if side.Writer? && next == [] then None else Some(next)
  }

  function UniqueStep(st: State, next: Bytes): Outcome<State>
  {
    if next in st.seen then Fail else Ok(st.(seen := st.seen + {next}))
  }

  function LexicalStep(side: Side, st: State, next: Bytes): Outcome<State>
  {
    if st.prev.Some? && Compare(st.prev.value, next) > 0 then Fail
    else Ok(st.(prev := Remember(side, next)))
  }

  function LexicalNoDupsStep(side: Side, st: State, next: Bytes): Outcome<State>
  {
    if st.prev.Some? && Compare(st.prev.value, next) == 1 then Fail
    else if st.prev.Some? && Compare(st.prev.value, next) == 0 then Fail
    else Ok(st.(prev := Remember(side, next)))
  }

  function TypeByteStep(st: State, next: Bytes): Outcome<State>
  {
    if |next| < 1 || next[0] in st.types8 then Fail
    else Ok(st.(types8 := st.types8 + {next[0]}))
  }

  function TypeUint32Step(st: State, next: Bytes): Outcome<State>
  {
    if |next| < 4 || FromLittleEndian(next[..4]) in st.types32 then Fail
    else Ok(st.(types32 := st.types32 + {FromLittleEndian(next[..4])}))
  }

  /** ElementValidationFunc: the validators of the set bits, lowest bit first; the
      duplicate check is left to the merged validator when order is checked too. */
  function Step(mode: Mode, side: Side, st: State, next: Bytes): Outcome<State>
  {
    var ordered :- OrderStep(mode, side, st, next);
    TypeStep(mode, ordered, next)
  }

  function OrderStep(mode: Mode, side: Side, st: State, next: Bytes): Outcome<State>
  {
    var s1 :- if mode.noDups && !mode.lexical then UniqueStep(st, next) else Ok(st);
    if !mode.lexical then Ok(s1)
    else if mode.noDups then LexicalNoDupsStep(side, s1, next)
    else LexicalStep(side, s1, next)
  }

  function TypeStep(mode: Mode, st: State, next: Bytes): Outcome<State>
  {
    var s1 :- if mode.oneOfEachByte then TypeByteStep(st, next) else Ok(st);
    if mode.oneOfEachUint32 then TypeUint32Step(s1, next) else Ok(s1)
  }

  function Run(mode: Mode, side: Side, data: seq<Bytes>): Outcome<State>
  {
    if data == [] then Ok(Start) else
      var st :- Run(mode, side, data[..|data| - 1]);
      Step(mode, side, st, data[|data| - 1])
  }

  predicate Accepts(mode: Mode, side: Side, data: seq<Bytes>)
  {
    Run(mode, side, data).Ok?
  }

  // ----- what the validators mean ------------------------------------------------

  /** No two elements are equal; the writer does not notice empty ones when it
      compares with the previous element only. */
  predicate Distinct(data: seq<Bytes>, exemptEmpty: bool)
  {
    forall i, j :: 0 <= i < j < |data| && data[i] == data[j] ==> exemptEmpty && data[i] == []
  }

  predicate DistinctTypeBytes(data: seq<Bytes>)
  {
    && (forall i :: 0 <= i < |data| ==> |data[i]| >= 1)
    && (forall i, j :: 0 <= i < j < |data| ==> data[i][0] != data[j][0])
  }

  predicate DistinctTypeUint32s(data: seq<Bytes>)
  {
    && (forall i :: 0 <= i < |data| ==> |data[i]| >= 4)
    && (forall i, j :: 0 <= i < j < |data| ==>
          FromLittleEndian(data[i][..4]) != FromLittleEndian(data[j][..4]))
  }

  predicate OrderMeaning(mode: Mode, side: Side, data: seq<Bytes>)
  {
    && (mode.lexical ==> Ascending(data))
    && (mode.noDups ==> Distinct(data, side.Writer? && mode.lexical))
  }

  predicate Meaning(mode: Mode, side: Side, data: seq<Bytes>)
  {
    && OrderMeaning(mode, side, data)
    && (mode.oneOfEachByte ==> DistinctTypeBytes(data))
    && (mode.oneOfEachUint32 ==> DistinctTypeUint32s(data))
  }

  function TypeBytes(data: seq<Bytes>): set<nat>
  {
    set i | 0 <= i < |data| && |data[i]| >= 1 :: data[i][0]
  }

  function TypeUint32s(data: seq<Bytes>): set<nat>
  {
    set i | 0 <= i < |data| && |data[i]| >= 4 :: FromLittleEndian(data[i][..4])
  }

  /** The state after an accepted run. */
  ghost predicate Tracks(mode: Mode, side: Side, data: seq<Bytes>, st: State)
  {
    && TracksOrder(mode, side, data, st)
    && TracksTypes(mode, data, st)
  }

  ghost predicate TracksOrder(mode: Mode, side: Side, data: seq<Bytes>, st: State)
  {
    && (mode.lexical ==> st.prev == if data == [] then None else Remember(side, data[|data| - 1]))
    && (mode.noDups && !mode.lexical ==> st.seen == set x | x in data)
  }

  ghost predicate TracksTypes(mode: Mode, data: seq<Bytes>, st: State)
  {
    && (mode.oneOfEachByte ==> st.types8 == TypeBytes(data))
    && (mode.oneOfEachUint32 ==> st.types32 == TypeUint32s(data))
  }

  /** The composed validator accepts exactly the sequences with the declared properties. */
  lemma {:induction false} AcceptsIff(mode: Mode, side: Side, data: seq<Bytes>)
    ensures Accepts(mode, side, data) <==> Meaning(mode, side, data)
    ensures Accepts(mode, side, data) ==> Tracks(mode, side, data, Run(mode, side, data).value)
  {
    if data != [] {
      var front, x := data[..|data| - 1], data[|data| - 1];
      AcceptsIff(mode, side, front);
      assert data == front + [x];
      if Accepts(mode, side, front) {
        StepIff(mode, side, front, x, Run(mode, side, front).value);
      } else {
        MeaningPrefix(mode, side, front, x);
      }
    }
  }

  lemma MeaningPrefix(mode: Mode, side: Side, front: seq<Bytes>, x: Bytes)
    ensures Meaning(mode, side, front + [x]) ==> Meaning(mode, side, front)
  {
    var data := front + [x];
    assert forall i :: 0 <= i < |front| ==> front[i] == data[i];
  }

  lemma StepIff(mode: Mode, side: Side, front: seq<Bytes>, x: Bytes, st: State)
    requires Meaning(mode, side, front) && Tracks(mode, side, front, st)
    ensures Step(mode, side, st, x).Ok? <==> Meaning(mode, side, front + [x])
    ensures Step(mode, side, st, x).Ok? ==> Tracks(mode, side, front + [x], Step(mode, side, st, x).value)
  {
    OrderStepIff(mode, side, front, x, st);
    if mode.oneOfEachByte {
      TypeBytesExtend(front, x);
    }
    if mode.oneOfEachUint32 {
      TypeUint32sExtend(front, x);
    }
  }

  lemma OrderStepIff(mode: Mode, side: Side, front: seq<Bytes>, x: Bytes, st: State)
    requires OrderMeaning(mode, side, front) && TracksOrder(mode, side, front, st)
    ensures var r := OrderStep(mode, side, st, x);
            && (r.Ok? <==> OrderMeaning(mode, side, front + [x]))
            && (r.Ok? ==> TracksOrder(mode, side, front + [x], r.value))
            && (r.Ok? ==> r.value.types8 == st.types8 && r.value.types32 == st.types32)
  {
    if mode.lexical {
      LexicalExtend(side, front, x);
    }
    if mode.noDups {
      DistinctExtend(front, x, side.Writer? && mode.lexical);
      assert (set y | y in front + [x]) == (set y | y in front) + {x};
    }
  }

  /** Comparing with the previous element decides order, and strict order decides
      distinctness from every earlier element. */
  lemma LexicalExtend(side: Side, front: seq<Bytes>, x: Bytes)
    requires Ascending(front)
    ensures Ascending(front + [x]) <==> front == [] || Le(front[|front| - 1], x)
    ensures front != [] && Compare(front[|front| - 1], x) < 0 ==> x !in front
    ensures front != [] && front[|front| - 1] == [] ==> forall i :: 0 <= i < |front| ==> front[i] == []
    ensures front != [] && front[|front| - 1] == [] ==> Le(front[|front| - 1], x)
  {
    var data := front + [x];
    if front != [] {
      var last := front[|front| - 1];
      assert data[|front| - 1] == last && data[|front|] == x;
      if Le(last, x) {
        forall i | 0 <= i < |front| ensures Le(front[i], x) && (Compare(last, x) < 0 ==> front[i] != x) {
          if i < |front| - 1 {
            assert Le(front[i], last);
            LeTransitive(front[i], last, x);
          }
        }
        assert Ascending(data);
      }
      forall i | 0 <= i < |front| && last == [] ensures front[i] == [] {
        if i < |front| - 1 {
          assert Le(front[i], last);
        }
      }
    }
  }

  lemma DistinctExtend(front: seq<Bytes>, x: Bytes, exemptEmpty: bool)
    ensures Distinct(front + [x], exemptEmpty)
       <==> Distinct(front, exemptEmpty) && (x !in front || (exemptEmpty && x == []))
  {
    var data := front + [x];
    assert forall i :: 0 <= i < |front| ==> front[i] == data[i];
    if Distinct(data, exemptEmpty) && x in front {
      var i :| 0 <= i < |front| && front[i] == x;
      assert data[i] == data[|front|];
    }
  }

  lemma TypeBytesExtend(front: seq<Bytes>, x: Bytes)
    requires DistinctTypeBytes(front)
    ensures DistinctTypeBytes(front + [x]) <==> |x| >= 1 && x[0] !in TypeBytes(front)
    ensures |x| >= 1 ==> TypeBytes(front + [x]) == TypeBytes(front) + {x[0]}
  {
    var data := front + [x];
    assert forall i :: 0 <= i < |front| ==> front[i] == data[i];
    assert data[|front|] == x;
    if |x| >= 1 {
      forall t | t in TypeBytes(front) ensures t in TypeBytes(data) {
        var i :| 0 <= i < |front| && |front[i]| >= 1 && front[i][0] == t;
        assert data[i][0] == t;
      }
      assert x[0] in TypeBytes(data);
    }
  }

  lemma TypeUint32sExtend(front: seq<Bytes>, x: Bytes)
    requires DistinctTypeUint32s(front)
    ensures DistinctTypeUint32s(front + [x]) <==> |x| >= 4 && FromLittleEndian(x[..4]) !in TypeUint32s(front)
    ensures |x| >= 4 ==> TypeUint32s(front + [x]) == TypeUint32s(front) + {FromLittleEndian(x[..4])}
  {
    var data := front + [x];
    assert forall i :: 0 <= i < |front| ==> front[i] == data[i];
    assert data[|front|] == x;
    if |x| >= 4 {
      forall t | t in TypeUint32s(front) ensures t in TypeUint32s(data) {
        var i :| 0 <= i < |front| && |front[i]| >= 4 && FromLittleEndian(front[i][..4]) == t;
        assert FromLittleEndian(data[i][..4]) == t;
      }
      assert FromLittleEndian(x[..4]) in TypeUint32s(data);
    }
  }

  /** Comparing with the previous element replaces the map: with both bits set the
      merged validator accepts exactly what the order validator and the uniqueness
      validator accept separately, as long as at most one element is empty. For the
      reader it does so always; for the writer the condition is exact. */
  lemma MergedEqualsBoth(side: Side, data: seq<Bytes>)
    ensures var merged := Accepts(Mode(true, true, false, false), side, data);
            var both := && Accepts(Mode(false, true, false, false), side, data)
                        && Accepts(Mode(true, false, false, false), side, data);
            && (both ==> merged)
            && (side.Reader? ==> (merged <==> both))
            && (merged ==> (both <==> side.Reader? || |data| < 2 || data[1] != []))
  {
    AcceptsIff(Mode(true, true, false, false), side, data);
    AcceptsIff(Mode(false, true, false, false), side, data);
    AcceptsIff(Mode(true, false, false, false), side, data);
    if |data| >= 2 && Ascending(data) {
      if data[1] == [] {
        assert Le(data[0], data[1]);
        assert data[0] == data[1];
      } else {
        forall i | 1 <= i < |data| ensures data[i] != [] {
          if i > 1 {
            assert Le(data[1], data[i]);
          }
        }
      }
    }
  }

  /** What is rejected stays rejected when more elements follow. */
  lemma {:induction false} RejectsExtension(mode: Mode, side: Side, data: seq<Bytes>, i: nat)
    requires i <= |data| && !Accepts(mode, side, data[..i])
    ensures !Accepts(mode, side, data)
  {
    if i < |data| {
      assert data[..|data| - 1][..i] == data[..i];
      RejectsExtension(mode, side, data[..|data| - 1], i);
    } else {
      assert data[..i] == data;
    }
  }

  lemma RunAppend(mode: Mode, side: Side, data: seq<Bytes>, x: Bytes)
    requires Accepts(mode, side, data)
    ensures Run(mode, side, data + [x]) == Step(mode, side, Run(mode, side, data).value, x)
  {
    assert (data + [x])[..|data|] == data;
  }
}
