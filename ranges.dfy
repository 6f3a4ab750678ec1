/**
  `Range<T>`: an immutable interval with independently inclusive or exclusive
  bounds, instantiated at the integer types the library's tests use. Two ranges
  are equal exactly when their four fields are equal (datatype equality).
*/
module Ranges {
  import opened Guards
  import opened Formatting

  datatype Range = Range(from: int, to: int, isFromInclusive: bool, isToInclusive: bool)

  /** The smallest integer the lower bound admits. */
  function Lowest(r: Range): int {
    if r.isFromInclusive then r.from else r.from + 1
  }

  /** The largest integer the upper bound admits. */
  function Highest(r: Range): int {
    if r.isToInclusive then r.to else r.to - 1
  }

  /**
    `Range<T>.IsValueWithinRange`: the lower bound is `>=` when inclusive and `>`
    otherwise; the upper bound is `<=` when inclusive and `<` otherwise.
  */
  function IsValueWithinRange(r: Range, value: int): (b: bool)
    ensures b ==> r.from <= value <= r.to
    ensures r.from < value < r.to ==> b
    ensures value == r.from && r.from < r.to ==> (b <==> r.isFromInclusive)
    ensures value == r.to && r.from < r.to ==> (b <==> r.isToInclusive)
  {
    (if r.isFromInclusive then value >= r.from else value > r.from) &&
    (if r.isToInclusive then value <= r.to else value < r.to)
  }

  /** Over the integers a range is the closed interval from `Lowest` to `Highest`. */
  lemma WithinRangeIsClosedInterval(r: Range, value: int)
    ensures IsValueWithinRange(r, value) <==> Lowest(r) <= value <= Highest(r)
  {
  }

  /** A range holds some value exactly when its lowest admitted value is not above its highest. */
  lemma RangeNonEmpty(r: Range)
    ensures (exists v :: IsValueWithinRange(r, v)) <==> Lowest(r) <= Highest(r)
  {
    if Lowest(r) <= Highest(r) {
      assert IsValueWithinRange(r, Lowest(r));
    }
  }

  /**
    Making both bounds inclusive loses no member and adds nothing but the two
    endpoints, which both belong to the widened range whenever `from <= to`.
  */
  lemma InclusiveBoundsWiden(r: Range, value: int)
    ensures IsValueWithinRange(r, value) ==>
      IsValueWithinRange(Range(r.from, r.to, true, true), value)
    ensures IsValueWithinRange(Range(r.from, r.to, true, true), value) ==>
      IsValueWithinRange(r, value) || value == r.from || value == r.to
    ensures r.from <= r.to ==>
      IsValueWithinRange(Range(r.from, r.to, true, true), r.from) && IsValueWithinRange(Range(r.from, r.to, true, true), r.to)
  {
  }

  /** The message of the ArgumentOutOfRangeException raised when `to < from`. */
  function ConstructionMessage(from: int, to: int): (m: string)
    ensures |m| > 25 && m[..25] == "to must not be less than "
    ensures |m| > |ShowInt(to)| && m[|m| - |ShowInt(to)| - 1..] == ShowInt(to) + "."
  {
    Affixes("to must not be less than ", ShowInt(from) + ", but it actually is ", ShowInt(to) + ".");
    "to must not be less than " + ShowInt(from) + ", but it actually is " + ShowInt(to) + "."
  }

  /** The construction message names both bounds unambiguously. */
  lemma ConstructionMessageDetermines(from: int, to: int, from': int, to': int)
    requires ConstructionMessage(from, to) == ConstructionMessage(from', to')
    ensures from == from' && to == to'
  {
    TwoValueMessageDetermines("to must not be less than ", ", but it actually is ", from, to, from', to');
  }

  /**
    The constructor `new Range<T>(from, to, isFromInclusive, isToInclusive)`:
    it rejects `to < from` (equal bounds are legal) and otherwise stores the
    four fields verbatim. Both flags default to inclusive.
  */
  function NewRange(from: int, to: int, isFromInclusive: bool := true, isToInclusive: bool := true): (r: Checked<Range>)
    ensures r.Ok? <==> from <= to
    ensures r.Ok? ==> r.value == Range(from, to, isFromInclusive, isToInclusive)
    ensures r.Fail? ==> r.fault.kind == ArgumentOutOfRangeException && r.fault.paramName == Some("to")
    ensures r.Fail? ==> r.fault.message == Some(ConstructionMessage(from, to))
  {
    if to < from then
      Fail(Fault(ArgumentOutOfRangeException, Some("to"), Some(ConstructionMessage(from, to))))
    else
      Ok(Range(from, to, isFromInclusive, isToInclusive))
  }

  /** The intermediate value of the fluent builder: a lower bound and its inclusivity. */
  datatype RangeFromInfo = RangeFromInfo(from: int, isFromInclusive: bool)

  /** `Range<T>.FromInclusive(from)`: a lower bound that belongs to the range. */
  function FromInclusive(from: int): (info: RangeFromInfo)
    ensures info.from == from && info.isFromInclusive
  {
    RangeFromInfo(from, true)
  }

  /** `Range<T>.FromExclusive(from)`: a lower bound that does not belong to the range. */
  function FromExclusive(from: int): (info: RangeFromInfo)
    ensures info.from == from && !info.isFromInclusive
  {
    RangeFromInfo(from, false)
  }

  /**
    `.ToInclusive(to)`: completes the range with an upper bound that belongs to
    it; `to < from` is the constructor's ArgumentOutOfRangeException.
  */
  function ToInclusive(info: RangeFromInfo, to: int): (r: Checked<Range>)
    ensures r.Ok? <==> info.from <= to
    ensures r.Ok? ==> r.value == Range(info.from, to, info.isFromInclusive, true)
    ensures r.Ok? ==> (IsValueWithinRange(r.value, to) <==> info.isFromInclusive || info.from < to)
    ensures r.Fail? ==> r.fault == Fault(ArgumentOutOfRangeException, Some("to"), Some(ConstructionMessage(info.from, to)))
  {
    NewRange(info.from, to, info.isFromInclusive, true)
  }

  /**
    `.ToExclusive(to)`: completes the range with an upper bound that does not
    belong to it; `to < from` is the constructor's ArgumentOutOfRangeException.
  */
  function ToExclusive(info: RangeFromInfo, to: int): (r: Checked<Range>)
    ensures r.Ok? <==> info.from <= to
    ensures r.Ok? ==> r.value == Range(info.from, to, info.isFromInclusive, false) && !IsValueWithinRange(r.value, to)
    ensures r.Fail? ==> r.fault == Fault(ArgumentOutOfRangeException, Some("to"), Some(ConstructionMessage(info.from, to)))
  {
    NewRange(info.from, to, info.isFromInclusive, false)
  }

  /**
    The builder is the constructor under another spelling: all four combinations
    give the same range, or the same exception, as the direct call.
  */
  lemma BuilderMatchesConstructor(from: int, to: int)
    ensures ToInclusive(FromInclusive(from), to) == NewRange(from, to, true, true)
    ensures ToExclusive(FromInclusive(from), to) == NewRange(from, to, true, false)
    ensures ToInclusive(FromExclusive(from), to) == NewRange(from, to, false, true)
    ensures ToExclusive(FromExclusive(from), to) == NewRange(from, to, false, false)
  {
  }

  /**
    `Range.For(collection)` for lists, strings, arrays, memories and spans (all
    a sequence here): the index range `[0, count)`. The constructor accepts it,
    and the values it holds are exactly the valid indices.
  */
  function For<T>(items: seq<T>): (r: Range)
    ensures NewRange(0, |items|, true, false) == Ok(r)
    ensures forall i :: IsValueWithinRange(r, i) <==> 0 <= i < |items|
  {
    Range(0, |items|, true, false)
  }

  /** The membership examples of the range tests. */
  lemma MembershipExamples()
    ensures IsValueWithinRange(Range(0, 5, true, true), 0)
    ensures IsValueWithinRange(Range(0, 5, false, true), 5)
    ensures IsValueWithinRange(Range(0, 5, false, false), 4)
    ensures IsValueWithinRange(Range(0, 5, false, false), 1)
    ensures IsValueWithinRange(Range(-4, 4, false, false), 0)
    ensures IsValueWithinRange(Range(42, 80, true, false), 42)
    ensures !IsValueWithinRange(Range(0, 5, true, true), -1)
    ensures !IsValueWithinRange(Range(0, 5, false, true), 6)
    ensures !IsValueWithinRange(Range(0, 5, false, false), 5)
    ensures !IsValueWithinRange(Range(0, 5, false, false), 0)
    ensures !IsValueWithinRange(Range(-4, 4, false, false), -80)
    ensures !IsValueWithinRange(Range(42, 80, false, false), 42)
  {
  }

  /** The construction failures of the range tests, with their message. */
  lemma ConstructionExamples()
    ensures ToExclusive(FromInclusive(1), 0) ==
      Fail(Fault(ArgumentOutOfRangeException, Some("to"), Some("to must not be less than " + "1" + ", but it actually is " + "0" + ".")))
    ensures ToExclusive(FromInclusive(42), -1).Fail?
    ensures ToExclusive(FromInclusive(-87), -88).Fail?
  {
    assert ShowInt(1) == "1" && ShowInt(0) == "0";
  }
}
