/** coap_serialize_get_size of er-coap-13.c: the buffer size reserved for a message, and when it
    is enough. */
module CoapSize {
  import opened Bytes
  import opened CoapOptions
  import opened Coap

  function ItemsSize(items: seq<bytes>): nat {
    if items == [] then 0 else MAX_OPTION_HEADER_LEN + |items[0]| + ItemsSize(items[1..])
  }

  /** What one option is given: five bytes of header per option sent, plus the value's length
      for strings. The value bytes of an integer option have to fit in the five. */
  function ValueSize(v: Value): nat {
    match v
    case Raw(b) => MAX_OPTION_HEADER_LEN + |b|
    case Flag => MAX_OPTION_HEADER_LEN
    case Number(_) => MAX_OPTION_HEADER_LEN
    case BlockOf(_) => MAX_OPTION_HEADER_LEN
    case Items(list) => ItemsSize(list)
    case Numbers(list) => |list| * MAX_OPTION_HEADER_LEN
  }

  /** The room for the option lines from line `k` on. */
  function LinesSize(options: Options, k: nat): nat
    requires k <= |ORDER|
    decreases |ORDER| - k
  {
    if k == |ORDER| then 0
    else (if ORDER[k] in options then ValueSize(options[ORDER[k]]) else 0) + LinesSize(options, k + 1)
  }

  function GetSize(p: Packet): nat {
    HEADER_LEN + |p.payload| + |TokenBytes(p)| + LinesSize(p.options, 0) + (if p.payload == [] then 0 else 1)
  }

  /** One option's share: list options add up their items. */
  method OptionSize(v: Value) returns (size: nat)
    ensures size == ValueSize(v)
  {
    if !v.Items? {
      return ValueSize(v);
    }
    size := 0;
    for i := 0 to |v.items|
      invariant size + ItemsSize(v.items[i..]) == ItemsSize(v.items)
    {
      assert v.items[i..][1..] == v.items[i + 1..];
      size := size + MAX_OPTION_HEADER_LEN + |v.items[i]|;
    }
  }

  /** coap_serialize_get_size. */
  method SerializeGetSize(p: Packet) returns (length: nat)
    ensures length == GetSize(p)
  {
    hide ItemsSize, ValueSize;
    length := HEADER_LEN + |p.payload| + |TokenBytes(p)|;
    ghost var base := length;
    for k := 0 to |ORDER|
      invariant length + LinesSize(p.options, k) == base + LinesSize(p.options, 0)
    {
      if ORDER[k] in p.options {
        var v := p.options[ORDER[k]];
        var size := OptionSize(v);
        length := length + size;
      }
    }
    if |p.payload| > 0 {
      length := length + 1;
    }
  }

  lemma OneValue(number: nat, current: nat, value: bytes)
    requires current <= number
    ensures EncodeValues(number, current, [value]) == Header(number - current, |value|) + value
  {
    var one: seq<bytes> := [value];
    assert one[1..] == [];
    var e: bytes := Header(number - current, |value|) + value;
    assert e + [] == e;
  }

  /** An integer option fits the five bytes given to it exactly when it is not both a
      four-byte value and more than twelve above the option before it. */
  lemma IntegerLineFits(number: nat, current: nat, value: uint32)
    requires current <= number <= current + 268
    ensures |FieldBytes(Field(number, true, [IntBytes(value)]), current)| <= MAX_OPTION_HEADER_LEN
            <==> !(value >= 0x100_0000 && number - current > 12)
  {
    var h, b := Header(number - current, |IntBytes(value)|), IntBytes(value);
    OneValue(number, current, b);
    assert |b| <= 4 && (value >= 0x100_0000 ==> |b| == 4);
  }

  /** The options that can be wide, Max-Age and Size, fit into three bytes. */
  ghost predicate IntegersFit(options: Options) {
    && (MAX_AGE in options && options[MAX_AGE].Number? ==> options[MAX_AGE].number < 0x100_0000)
    && (SIZE in options && options[SIZE].Number? ==> options[SIZE].number < 0x100_0000)
  }

  lemma FieldNumber(p: Packet, number: nat, current: nat)
    requires WellTyped(p)
    ensures FieldOf(p, number).number == number
    ensures number !in p.options && current <= number ==> FieldBytes(FieldOf(p, number), current) == []
  {
  }

  // ---- exactly when it is enough -------------------------------------------------------------

  /** What an option sent with that difference of numbers leaves of the five bytes of its header: one byte is
      always used, and the extensions of both nibbles take up to two each. */
  function Left(delta: nat, length: nat): int {
    MAX_OPTION_HEADER_LEN - 1 - |Extension(delta)| - |Extension(length)|
  }

  function ItemsLeft(delta: nat, items: seq<bytes>): int {
    if items == [] then 0 else Left(delta, |items[0]|) + ItemsLeft(0, items[1..])
  }

  function NumbersLeft(delta: nat, values: seq<uint16>): int {
    if values == [] then 0 else IntegerLeft(delta, values[0]) + NumbersLeft(0, values[1..])
  }

  function IntegerLeft(delta: nat, value: uint32): int {
    Left(delta, |IntBytes(value)|) - |IntBytes(value)|
  }

  /** What an option line leaves of its room, or takes beyond it. */
  function LineLeft(delta: nat, v: Value): int
    requires v.BlockOf? ==> SettableBlock(v.block.num, v.block.size)
  {
    match v
    case Raw(b) => Left(delta, |b|)
    case Flag => IntegerLeft(delta, 0)
    case Number(n) => IntegerLeft(delta, n)
    case BlockOf(b) => IntegerLeft(delta, PackBlock(b))
    case Items(list) => ItemsLeft(delta, list)
    case Numbers(list) => NumbersLeft(delta, list)
  }

  lemma OneLeft(number: nat, current: nat, value: bytes)
    requires current <= number
    ensures |EncodeValues(number, current, [value])| == MAX_OPTION_HEADER_LEN + |value| - Left(number - current, |value|)
  {
    OneValue(number, current, value);
  }

  lemma {:induction false} ItemsLeftIs(number: nat, current: nat, items: seq<bytes>)
    requires current <= number
    ensures |EncodeValues(number, current, items)| + ItemsLeft(number - current, items) == ItemsSize(items)
    decreases |items|
  {
    hide Extension;
    if items != [] {
      ItemsLeftIs(number, number, items[1..]);
    }
  }

  lemma {:induction false} NumbersLeftIs(number: nat, current: nat, values: seq<uint16>)
    requires current <= number
    ensures |EncodeValues(number, current, IntValues(values))| + NumbersLeft(number - current, values) == |values| * MAX_OPTION_HEADER_LEN
    decreases |values|
  {
    hide Extension, IntBytes;
    if values != [] {
      assert IntValues(values)[1..] == IntValues(values[1..]);
      NumbersLeftIs(number, number, values[1..]);
    }
  }

  /** A line is shorter than its room by exactly that much. */
  lemma LineLeftIs(p: Packet, number: nat, current: nat)
    requires WellTyped(p) && number in p.options && current <= number
    ensures |FieldBytes(FieldOf(p, number), current)| + LineLeft(number - current, p.options[number]) == ValueSize(p.options[number])
  {
    hide Extension, IntBytes, PackBlock, EncodeValues;
    var v := p.options[number];
    assert Fits(KindOf(number), v);
    match v
    case Raw(b) => OneLeft(number, current, b);
    case Flag => OneLeft(number, current, IntBytes(0));
    case Number(n) => OneLeft(number, current, IntBytes(n));
    case Items(list) => ItemsLeftIs(number, current, list);
    case Numbers(list) => NumbersLeftIs(number, current, list);
    case BlockOf(b) => OneLeft(number, current, IntBytes(PackBlock(b)));
  }

  /** The option number reached after the first `k` lines. */
  function Reached(options: Options, k: nat): nat
    requires k <= |ORDER|
  {
    if k == 0 then 0
    else
      var number := ORDER[k - 1];
      if number in options && options[number] != Numbers([]) then number else Reached(options, k - 1)
  }

  /** The line of a set option, in terms of the options alone. */
  function Spared(options: Options, k: nat): int
    requires k < |ORDER| && ORDER[k] in options && Reached(options, k) <= ORDER[k]
    requires var v := options[ORDER[k]]; v.BlockOf? ==> SettableBlock(v.block.num, v.block.size)
  {
    LineLeft(ORDER[k] - Reached(options, k), options[ORDER[k]])
  }

  lemma {:induction false} ReachedBelow(options: Options, k: nat)
    requires k < |ORDER|
    ensures Reached(options, k) < ORDER[k]
  {
    if k > 0 {
      assert ORDER[k - 1] < ORDER[k];
      ReachedBelow(options, k - 1);
    }
  }

  predicate Sendable(options: Options) {
    forall n :: n in options ==> Fits(KindOf(n), options[n])
  }

  /** The bytes that the lines from line `k` on leave of their room, as far as they do. */
  function Spare(options: Options, k: nat): nat
    requires k <= |ORDER| && Sendable(options)
    decreases |ORDER| - k
  {
    if k == |ORDER| then 0
    else
      ReachedBelow(options, k);
      (if ORDER[k] in options then Max(0, Spared(options, k)) else 0) + Spare(options, k + 1)
  }

  predicate Wide(options: Options, number: nat) {
    number in options && options[number].Number? && options[number].number >= 0x100_0000
  }

  /** A Max-Age of four bytes with no option between If-Match and it. */
  predicate MaxAgeExceeds(options: Options) {
    Wide(options, MAX_AGE) && forall n :: n in options ==> !(IF_MATCH < n < MAX_AGE)
  }

  /** A Size of four bytes with no option between Uri-Query and it that is sent. */
  predicate SizeExceeds(options: Options) {
    Wide(options, SIZE) && forall n :: n in options && URI_QUERY < n < SIZE ==> options[n] == Numbers([])
  }

  function Excess(options: Options, k: nat): nat {
    (if k <= 9 && MaxAgeExceeds(options) then 1 else 0) + (if k <= 14 && SizeExceeds(options) then 1 else 0)
  }

  lemma OrderIs(k: nat)
    requires k < |ORDER|
    ensures ORDER[k] == MAX_AGE <==> k == 9
    ensures ORDER[k] == SIZE <==> k == 14
    ensures ORDER[k] <= 28 && (k < 9 ==> ORDER[k] <= 12)
  {
  }

  /** Only a wide Max-Age or Size whose delta is above twelve takes more than its room, and then one byte. */
  lemma SparedIs(options: Options, k: nat)
    requires k < |ORDER| && ORDER[k] in options && Sendable(options) && Reached(options, k) <= ORDER[k]
    ensures Spared(options, k) == -1 || Spared(options, k) >= 0
    ensures Spared(options, k) == -1 <==>
      (k == 9 || k == 14) && Wide(options, ORDER[k]) && ORDER[k] - Reached(options, k) > 12
  {
    hide Reached, IntBytes, PackBlock;
    var delta, v := ORDER[k] - Reached(options, k), options[ORDER[k]];
    OrderIs(k);
    assert Fits(KindOf(ORDER[k]), v);
    match v
    case Raw(b) =>
    case Flag => IntegerLeftIs(delta, 0);
    case Number(n) => IntegerLeftIs(delta, n);
    case BlockOf(b) => IntegerLeftIs(delta, PackBlock(b));
    case Items(list) => ItemsLeave(delta, list);
    case Numbers(list) => NumbersLeave(delta, list);
  }

  lemma IntegerLeftIs(delta: nat, value: uint32)
    requires delta <= 28
    ensures IntegerLeft(delta, value) >= -1
    ensures IntegerLeft(delta, value) == -1 <==> delta > 12 && value >= 0x100_0000
  {
    assert |IntBytes(value)| == 4 <==> value >= 0x100_0000;
  }

  lemma {:induction false} ItemsLeave(delta: nat, items: seq<bytes>)
    requires delta <= 28 && forall i :: 0 <= i < |items| ==> |items[i]| <= 255
    ensures ItemsLeft(delta, items) >= 0
    decreases |items|
  {
    if items != [] { ItemsLeave(0, items[1..]); }
  }

  lemma {:induction false} NumbersLeave(delta: nat, values: seq<uint16>)
    requires delta <= 28
    ensures NumbersLeft(delta, values) >= 0
    decreases |values|
  {
    if values != [] {
      IntegerLeftIs(delta, values[0]);
      NumbersLeave(0, values[1..]);
    }
  }

  /** The number reached before Max-Age, or before Size, is small exactly if nothing comes in between. */
  lemma {:induction false} ReachedIs(options: Options, k: nat, low: nat)
    requires k <= |ORDER|
    ensures Reached(options, k) > low <==>
      exists j :: 0 <= j < k && ORDER[j] > low && ORDER[j] in options && options[ORDER[j]] != Numbers([])
  {
    if k > 0 {
      ReachedIs(options, k - 1, low);
      ReachedBelow(options, k - 1);
      if ORDER[k - 1] in options && options[ORDER[k - 1]] != Numbers([]) {
        if Reached(options, k) > low { assert ORDER[k - 1] > low; }
      } else if Reached(options, k) > low {
        var j :| 0 <= j < k - 1 && ORDER[j] > low && ORDER[j] in options && options[ORDER[j]] != Numbers([]);
        assert j < k;
      }
    }
  }

  lemma ExceedsIs(options: Options)
    requires Sendable(options)
    ensures MaxAgeExceeds(options) <==> Wide(options, MAX_AGE) && MAX_AGE - Reached(options, 9) > 12
    ensures SizeExceeds(options) <==> Wide(options, SIZE) && SIZE - Reached(options, 14) > 12
  {
    ReachedIs(options, 9, 1);
    ReachedIs(options, 14, 15);
    forall n | n in options && IF_MATCH < n < MAX_AGE ensures options[n] != Numbers([]) && n in ORDER[..9] {
      assert Fits(KindOf(n), options[n]);
      Between(n);
    }
    forall n | n in options && URI_QUERY < n < SIZE ensures n in ORDER[..14] {
      assert Fits(KindOf(n), options[n]);
      Between(n);
    }
  }

  lemma Between(n: nat)
    ensures IF_MATCH < n < MAX_AGE && !KindOf(n).Unknown? ==> n in ORDER[..9] && !KindOf(n).HalfList?
    ensures URI_QUERY < n < SIZE && !KindOf(n).Unknown? && !KindOf(n).Merged? ==> n in ORDER[..14]
  {
    var o := ORDER;
    assert o[1] == 3 && o[2] == 4 && o[3] == 5 && o[4] == 6 && o[5] == 7 && o[6] == 8 && o[7] == 11 && o[8] == 12;
    assert o[11] == 17 && o[12] == 23 && o[13] == 27;
  }

  lemma {:induction false} LinesLeft(p: Packet, k: nat)
    requires WellTyped(p) && k <= |ORDER| && Ascending(Fields(p)[k..], Reached(p.options, k))
    ensures |EncodeFields(Fields(p)[k..], Reached(p.options, k))| + Spare(p.options, k) == LinesSize(p.options, k) + Excess(p.options, k)
    decreases |ORDER| - k
  {
    hide FieldBytes, FieldOf, Fits, ValueSize, Spared, MaxAgeExceeds, SizeExceeds, Wide, Reached;
    var fs, current := Fields(p)[k..], Reached(p.options, k);
    if k < |ORDER| {
      assert fs[0] == FieldOf(p, ORDER[k]) && fs[1..] == Fields(p)[k + 1..];
      AscendingRest(fs, current);
      NumberIsReached(p, k);
      ReachedBelow(p.options, k);
      LinesLeft(p, k + 1);
      FieldNumber(p, ORDER[k], current);
      LineExcess(p.options, k);
      if ORDER[k] in p.options {
        LineLeftIs(p, ORDER[k], current);
        assert Spared(p.options, k) == LineLeft(ORDER[k] - current, p.options[ORDER[k]]) by { SparedUnfolds(p.options, k); }
      }
    }
  }

  lemma SparedUnfolds(options: Options, k: nat)
    requires k < |ORDER| && ORDER[k] in options && Reached(options, k) <= ORDER[k] && Sendable(options)
    ensures Fits(KindOf(ORDER[k]), options[ORDER[k]])
    ensures Spared(options, k) == LineLeft(ORDER[k] - Reached(options, k), options[ORDER[k]])
  {
  }

  lemma NumberIsReached(p: Packet, k: nat)
    requires WellTyped(p) && k < |ORDER|
    ensures NumberAfter(FieldOf(p, ORDER[k]), Reached(p.options, k)) == Reached(p.options, k + 1)
  {
    hide Reached;
    var n := ORDER[k];
    if n in p.options {
      assert Fits(KindOf(n), p.options[n]);
      assert n == ACCEPT <==> KindOf(n).HalfList?;
      if n == ACCEPT { assert ValuesOf(p.options[n]) == [] <==> p.options[n] == Numbers([]); }
    }
    ReachedStep(p.options, k);
  }

  lemma ReachedStep(options: Options, k: nat)
    requires k < |ORDER|
    ensures Reached(options, k + 1) ==
      if ORDER[k] in options && options[ORDER[k]] != Numbers([]) then ORDER[k] else Reached(options, k)
  {
  }

  /** What line `k` adds to the excess. */
  lemma LineExcess(options: Options, k: nat)
    requires k < |ORDER| && Sendable(options) && Reached(options, k) <= ORDER[k]
    ensures Excess(options, k) - Excess(options, k + 1) ==
      if ORDER[k] in options then Max(0, Spared(options, k)) - Spared(options, k) else 0
  {
    hide Reached, Spared, MaxAgeExceeds, SizeExceeds;
    ExceedsIs(options);
    OrderIs(k);
    if ORDER[k] in options { SparedIs(options, k); }
  }

  /** The reserved size is short by the excess of the wide options, less what all others leave. */
  lemma SizeLeft(p: Packet)
    requires WellTyped(p)
    ensures Sendable(p.options)
    ensures |Serialize(p)| + Spare(p.options, 0) == GetSize(p) + Excess(p.options, 0)
  {
    FieldsAscending(p);
    assert Fields(p)[0..] == Fields(p);
    LinesLeft(p, 0);
  }

  /** The reserved size is enough exactly if what the options leave of their room makes up for a wide Max-Age
      and a wide Size with too few options in front of them. */
  lemma SizeIsEnoughIff(p: Packet)
    requires WellTyped(p)
    ensures Sendable(p.options)
    ensures |Serialize(p)| <= GetSize(p) <==>
      (if MaxAgeExceeds(p.options) then 1 else 0) + (if SizeExceeds(p.options) then 1 else 0) <= Spare(p.options, 0)
  {
    SizeLeft(p);
  }

  /** It is enough for every message whose Max-Age and Size values fit in three bytes. */
  lemma SizeIsEnough(p: Packet)
    requires WellTyped(p) && IntegersFit(p.options)
    ensures |Serialize(p)| <= GetSize(p)
  {
    SizeIsEnoughIff(p);
  }

  /** It is not always enough: a message carrying only a Max-Age of 2^24 seconds is one byte
      longer than announced. */
  lemma SizeTooSmall()
    ensures var p := Packet(2, 0x45, 1, None, map[MAX_AGE := Number(0x100_0000)], []);
            WellTyped(p) && |Serialize(p)| == GetSize(p) + 1
  {
    var p := Packet(2, 0x45, 1, None, map[MAX_AGE := Number(0x100_0000)], []);
    SizeLeft(p);
    NothingSpared(p.options, 0);
  }

  lemma {:induction false} NothingSpared(options: Options, k: nat)
    requires k <= |ORDER| && options == map[MAX_AGE := Number(0x100_0000)] && Sendable(options)
    ensures Spare(options, k) == 0
    decreases |ORDER| - k
  {
    hide Spared, Reached;
    if k < |ORDER| {
      OrderIs(k);
      if k == 9 {
        ExceedsIs(options);
        ReachedBelow(options, k);
        SparedIs(options, k);
      }
      NothingSpared(options, k + 1);
    }
  }
}
