/**
 The event round trip of the JSON document: a value describes itself by events (Accept), and a stack
 machine rebuilds a value from events (the handler of GenericDocument).
 */
module JsonDocument {

  // ---------- Numbers ----------

  const TWO31 := 0x8000_0000
  const TWO32 := 0x1_0000_0000
  const TWO63 := 0x8000_0000_0000_0000
  const TWO64 := 0x1_0000_0000_0000_0000

  type int32 = i: int | -TWO31 <= i < TWO31
  type uint32 = i: int | 0 <= i < TWO32
  type int64 = i: int | -TWO63 <= i < TWO63
  type uint64 = i: int | 0 <= i < TWO64

  /** The five number flags: what the number can be read as. */
  datatype NumFlags = NumFlags(isInt: bool, isUint: bool, isInt64: bool, isUint64: bool, isDouble: bool)

  /** The union behind a number: 64 bits, or a double. */
  datatype Payload = Bits(u64: uint64) | Dbl(d: real)

  datatype Value =
    | Null
    | Bool(b: bool)
    | Num(flags: NumFlags, data: Payload)
    | Str(chars: string, kind: StrKind)
    | Obj(members: seq<Member>)
    | Arr(elements: seq<Value>)

  datatype Member = Member(name: Value, value: Value)

  datatype StrKind = ConstStr | ShortStr | CopyStr

  /** Sign extension to 64 bits. */
  function Extended(i: int64): uint64 {
    if i < 0 then i + TWO64 else i
  }

  /** No bit at place `k` or above, for the masks that the constructors test. */
  predicate NoneFrom(u: uint64, place: int)
    requires place > 0
  {
    u / place == 0
  }

  function OfInt(i: int32): Value {
    Num(if i >= 0 then NumFlags(true, true, true, true, false) else NumFlags(true, false, true, false, false),
        Bits(Extended(i)))
  }

  function OfUint(u: uint32): Value {
    Num(if (u / TWO31) % 2 == 1 then NumFlags(false, true, true, true, false)
      else NumFlags(true, true, true, true, false),
        Bits(u))
  }

  function OfInt64(i: int64): Value {
    var u := Extended(i);
    Num(if i >= 0 then NumFlags(NoneFrom(u, TWO31), NoneFrom(u, TWO32), true, true, false)
        else NumFlags(i >= -TWO31, false, true, false, false),
        Bits(u))
  }

  function OfUint64(u: uint64): Value {
    Num(NumFlags(NoneFrom(u, TWO31), NoneFrom(u, TWO32), NoneFrom(u, TWO63), true, false), Bits(u))
  }

  function OfDouble(d: real): Value {
    Num(NumFlags(false, false, false, false, true), Dbl(d))
  }

  /** What the flags of the number `n` must be: each says whether `n` is in the range of its type. */
  function Ranges(n: int): NumFlags {
    NumFlags(-TWO31 <= n < TWO31, 0 <= n < TWO32, -TWO63 <= n < TWO63, 0 <= n < TWO64, false)
  }

  function Canonical(n: int): Value
    requires -TWO63 <= n < TWO64
  {
    Num(Ranges(n), Bits(if n < 0 then n + TWO64 else n))
  }

  lemma NoneFromMeans(u: uint64, place: int)
    requires place > 0
    ensures NoneFrom(u, place) <==> u < place
  {
  }

  /** The limits of the four integer types, in decimals. */
  lemma FlagsInDecimals(n: int)
    requires -9223372036854775808 <= n <= 18446744073709551615
    ensures Canonical(n).flags == NumFlags(
      -2147483648 <= n <= 2147483647, 0 <= n <= 4294967295,
      -9223372036854775808 <= n <= 9223372036854775807, 0 <= n, false)
  {
  }

  /** A copied string of at most 13 characters is stored inside the value. */
  lemma ShortExactly(chars: string)
    ensures MakeStr(chars, true).kind == if |chars| <= 13 then ShortStr else CopyStr
    ensures MakeStr(chars, false).kind == ConstStr
  {
  }

  /** Flags and data depend on the number alone, not on the constructor it came through. */
  lemma FlagsDependOnNumber()
    ensures forall i: int32 :: OfInt(i) == Canonical(i)
    ensures forall u: uint32 :: OfUint(u) == Canonical(u)
    ensures forall i: int64 :: OfInt64(i) == Canonical(i)
    ensures forall u: uint64 :: OfUint64(u) == Canonical(u)
  {
    forall u: uint64
      ensures OfUint64(u) == Canonical(u)
    {
      NoneFromMeans(u, TWO31);
      NoneFromMeans(u, TWO32);
      NoneFromMeans(u, TWO63);
    }
    forall i: int64
      ensures OfInt64(i) == Canonical(i)
    {
      NoneFromMeans(Extended(i), TWO31);
      NoneFromMeans(Extended(i), TWO32);
    }
  }

  /** A number made by one of the five constructors. */
  ghost predicate IsMadeNumber(v: Value) {
    || (exists i: int32 :: v == OfInt(i))
    || (exists u: uint32 :: v == OfUint(u))
    || (exists i: int64 :: v == OfInt64(i))
    || (exists u: uint64 :: v == OfUint64(u))
    || (exists d: real :: v == OfDouble(d))
  }

  /** Every made number is a double or the canonical form of an integer. */
  lemma MadeNumber(v: Value) returns (n: int)
    requires IsMadeNumber(v)
    ensures v.Num? && (v.flags.isDouble <==> v.data.Dbl?)
    ensures if v.flags.isDouble then v == OfDouble(v.data.d) else -TWO63 <= n < TWO64 && v == Canonical(n)
  {
    FlagsDependOnNumber();
    n := 0;
    if i: int32 :| v == OfInt(i) { n := i; }
    else if u: uint32 :| v == OfUint(u) { n := u; }
    else if i: int64 :| v == OfInt64(i) { n := i; }
    else if u: uint64 :| v == OfUint64(u) { n := u; }
  }

  // ---------- Strings ----------

  /** ShortString::MaxSize with 48-bit pointers. */
  const MAX_SHORT := 13

  function MakeStr(chars: string, copy: bool): Value {
    Str(chars, if !copy then ConstStr else if |chars| <= MAX_SHORT then ShortStr else CopyStr)
  }

  /** kCopyFlag. */
  predicate HasCopyFlag(k: StrKind) { k != ConstStr }

  ghost predicate IsMadeString(v: Value) {
    v.Str? && v == MakeStr(v.chars, HasCopyFlag(v.kind))
  }

  /** Built by the constructors; member names are strings. */
  ghost predicate Made(v: Value)
    decreases v
  {
    match v
    case Null => true
    case Bool(_) => true
    case Num(_, _) => IsMadeNumber(v)
    case Str(_, _) => IsMadeString(v)
    case Obj(members) => forall i :: 0 <= i < |members| ==> IsMadeString(members[i].name) && Made(members[i].value)
    case Arr(elements) => forall i :: 0 <= i < |elements| ==> Made(elements[i])
  }

  // ---------- Events ----------

  datatype Event =
    | NullEvent
    | BoolEvent(b: bool)
    | IntEvent(i: int32)
    | UintEvent(u: uint32)
    | Int64Event(l: int64)
    | Uint64Event(ul: uint64)
    | DoubleEvent(d: real)
    | StringEvent(chars: string, copy: bool)
    | StartObject
    | Key(chars: string, copy: bool)
    | EndObject(memberCount: nat)
    | StartArray
    | EndArray(elementCount: nat)

  /** data_.n.i.i, data_.n.u.u and data_.n.i64. */
  function LowInt(u: uint64): int32 {
    var low := u % TWO32;
    if low >= TWO31 then low - TWO32 else low
  }

  function LowUint(u: uint64): uint32 { u % TWO32 }

  function Signed(u: uint64): int64 {
    if u >= TWO63 then u - TWO64 else u
  }

  /** The flags are asked in this order. */
  function NumberEvent(flags: NumFlags, data: Payload): Event {
    match data
    case Dbl(d) => DoubleEvent(d)
    case Bits(u) =>
      if flags.isInt then IntEvent(LowInt(u))
      else if flags.isUint then UintEvent(LowUint(u))
      else if flags.isInt64 then Int64Event(Signed(u))
      else Uint64Event(u)
  }

  function KeyOf(name: Value): Event {
    if name.Str? then Key(name.chars, HasCopyFlag(name.kind)) else NullEvent
  }

  /** The events a value sends. */
  function Events(v: Value): seq<Event>
    decreases v, 1
  {
    match v
    case Null => [NullEvent]
    case Bool(b) => [BoolEvent(b)]
    case Num(flags, data) => [NumberEvent(flags, data)]
    case Str(chars, kind) => [StringEvent(chars, HasCopyFlag(kind))]
    case Obj(members) => [StartObject] + MemberEvents(v, |members|) + [EndObject(|members|)]
    case Arr(elements) => [StartArray] + ElementEvents(v, |elements|) + [EndArray(|elements|)]
  }

  function MemberEvents(v: Value, n: nat): seq<Event>
    requires v.Obj? && n <= |v.members|
    decreases v, 0, n
  {
    if n == 0 then []
    else
      var m := v.members[n - 1];
      MemberEvents(v, n - 1) + [KeyOf(m.name)] + Events(m.value)
  }

  /** A member is announced by a Key event with its name, and its value follows. */
  lemma MemberIsAnnounced(v: Value, i: nat)
    requires v.Obj? && Made(v) && i < |v.members|
    ensures v.members[i].name.Str?
    ensures var name := v.members[i].name;
      MemberEvents(v, i + 1)
        == MemberEvents(v, i) + [Key(name.chars, name.kind != ConstStr)] + Events(v.members[i].value)
  {
  }

  /** Leaves are sent as what they are. */
  lemma LeavesAreSent(b: bool, d: real, chars: string, kind: StrKind)
    ensures Events(Null) == [NullEvent] && Events(Bool(b)) == [BoolEvent(b)]
    ensures Events(OfDouble(d)) == [DoubleEvent(d)]
    ensures Events(Str(chars, kind)) == [StringEvent(chars, kind != ConstStr)]
  {
  }

  function ElementEvents(v: Value, n: nat): seq<Event>
    requires v.Arr? && n <= |v.elements|
    decreases v, 0, n
  {
    if n == 0 then [] else ElementEvents(v, n - 1) + Events(v.elements[n - 1])
  }

  // ---------- The stack machine ----------

  datatype Outcome = Failed | Done(stack: seq<Value>)

  /** Two stack slots make a member. */
  function Paired(slots: seq<Value>): seq<Member> {
    seq(|slots| / 2, i requires 0 <= i < |slots| / 2 => Member(slots[2 * i], slots[2 * i + 1]))
  }

  /** One event; popping more than there is fails (RAPIDJSON_ASSERT). */
  function Step(stack: seq<Value>, e: Event): Outcome {
    match e
    case NullEvent => Done(stack + [Null])
    case BoolEvent(b) => Done(stack + [Bool(b)])
    case IntEvent(i) => Done(stack + [OfInt(i)])
    case UintEvent(u) => Done(stack + [OfUint(u)])
    case Int64Event(l) => Done(stack + [OfInt64(l)])
    case Uint64Event(ul) => Done(stack + [OfUint64(ul)])
    case DoubleEvent(d) => Done(stack + [OfDouble(d)])
    case StringEvent(chars, copy) => Done(stack + [MakeStr(chars, copy)])
    case StartObject => Done(stack + [Obj([])])
    case Key(chars, copy) => Done(stack + [MakeStr(chars, copy)])
    case EndObject(n) =>
      if |stack| < 2 * n + 1 then Failed
      else var top := |stack| - 2 * n; Done(stack[..top - 1] + [Obj(Paired(stack[top..]))])
    case StartArray => Done(stack + [Arr([])])
    case EndArray(n) =>
      if |stack| < n + 1 then Failed
      else var top := |stack| - n; Done(stack[..top - 1] + [Arr(stack[top..])])
  }

  function Run(stack: seq<Value>, events: seq<Event>): Outcome {
    if events == [] then Done(stack)
    else
      match Run(stack, events[..|events| - 1])
      case Failed => Failed
      case Done(t) => Step(t, events[|events| - 1])
  }

  lemma {:induction false} RunAppend(s: seq<Value>, a: seq<Event>, b: seq<Event>)
    ensures Run(s, a + b) == match Run(s, a) case Failed => Failed case Done(t) => Run(t, b)
  {
    if b == [] {
      assert a + b == a;
    } else {
      var n := |b| - 1;
      assert (a + b)[..|a + b| - 1] == a + b[..n];
      RunAppend(s, a, b[..n]);
    }
  }

  lemma RunOne(s: seq<Value>, e: Event)
    ensures Run(s, [e]) == Step(s, e)
  {
    assert [e][..0] == [];
  }

  // ---------- The round trip ----------

  /** A number comes back with the same flags and the same data. */
  lemma NumberRoundTrip(s: seq<Value>, v: Value)
    requires v.Num? && IsMadeNumber(v)
    ensures Step(s, NumberEvent(v.flags, v.data)) == Done(s + [v])
  {
    var n := MadeNumber(v);
    FlagsDependOnNumber();
    if !v.flags.isDouble {
      CanonicalRoundTrip(n, v);
    }
  }

  /** The narrowest event that the flags allow carries the number itself. */
  lemma CanonicalRoundTrip(n: int, v: Value)
    requires -TWO63 <= n < TWO64 && v == Canonical(n)
    ensures var e := NumberEvent(v.flags, v.data);
      e == if -TWO31 <= n < TWO31 then IntEvent(n) else if 0 <= n < TWO32 then UintEvent(n)
           else if n < TWO63 then Int64Event(n) else Uint64Event(n)
  {
  }

  /** The slots of the first `n` members. */
  function Slots(members: seq<Member>, n: nat): seq<Value>
    requires n <= |members|
  {
    if n == 0 then [] else Slots(members, n - 1) + [members[n - 1].name, members[n - 1].value]
  }

  lemma {:induction false} SlotsAt(members: seq<Member>, n: nat)
    requires n <= |members|
    ensures |Slots(members, n)| == 2 * n
    ensures forall i :: 0 <= i < n ==>
      Slots(members, n)[2 * i] == members[i].name && Slots(members, n)[2 * i + 1] == members[i].value
  {
    if n > 0 { SlotsAt(members, n - 1); }
  }

  lemma PairedSlots(members: seq<Member>)
    ensures Paired(Slots(members, |members|)) == members
  {
    SlotsAt(members, |members|);
  }

  /** Driving the handler with a value leaves the stack followed by exactly that value. */
  lemma {:induction false} RoundTrip(s: seq<Value>, v: Value)
    requires Made(v)
    ensures Run(s, Events(v)) == Done(s + [v])
    decreases v, 1
  {
    match v
    case Null => RunOne(s, NullEvent);
    case Bool(b) => RunOne(s, BoolEvent(b));
    case Num(flags, data) =>
      RunOne(s, NumberEvent(flags, data));
      NumberRoundTrip(s, v);
    case Str(chars, kind) => RunOne(s, StringEvent(chars, HasCopyFlag(kind)));
    case Obj(members) =>
      MembersRoundTrip(s + [Obj([])], v, |members|);
      ObjectCloses(s, members);
      RunBracketed(s, StartObject, Obj([]), MemberEvents(v, |members|), Slots(members, |members|),
        EndObject(|members|), v);
    case Arr(elements) =>
      ElementsRoundTrip(s + [Arr([])], v, |elements|);
      ArrayCloses(s, elements);
      RunBracketed(s, StartArray, Arr([]), ElementEvents(v, |elements|), elements, EndArray(|elements|), v);
  }

  lemma RunBracketed(s: seq<Value>, start: Event, shell: Value, body: seq<Event>, slots: seq<Value>,
                     end: Event, v: Value)
    requires Step(s, start) == Done(s + [shell])
    requires Run(s + [shell], body) == Done(s + [shell] + slots)
    requires Step(s + [shell] + slots, end) == Done(s + [v])
    ensures Run(s, [start] + body + [end]) == Done(s + [v])
  {
    RunOne(s, start);
    RunAppend(s, [start], body);
    RunAppend(s, [start] + body, [end]);
    RunOne(s + [shell] + slots, end);
  }

  lemma ArrayCloses(s: seq<Value>, elements: seq<Value>)
    ensures Step(s + [Arr([])] + elements, EndArray(|elements|)) == Done(s + [Arr(elements)])
  {
    PartsOfStack(s, Arr([]), elements);
  }

  lemma PartsOfStack(s: seq<Value>, x: Value, slots: seq<Value>)
    ensures var stack := s + [x] + slots;
      |stack| == |s| + 1 + |slots| && stack[..|s|] == s && stack[|s| + 1..] == slots
  {
  }

  lemma ObjectCloses(s: seq<Value>, members: seq<Member>)
    ensures Step(s + [Obj([])] + Slots(members, |members|), EndObject(|members|)) == Done(s + [Obj(members)])
  {
    var slots := Slots(members, |members|);
    SlotsAt(members, |members|);
    PartsOfStack(s, Obj([]), slots);
    PairedSlots(members);
  }

  lemma RunThen(s: seq<Value>, a: seq<Event>, t: seq<Value>, b: seq<Event>, u: seq<Value>)
    requires Run(s, a) == Done(t) && Run(t, b) == Done(u)
    ensures Run(s, a + b) == Done(u)
  {
    RunAppend(s, a, b);
  }

  lemma KeyPushes(s: seq<Value>, name: Value)
    requires IsMadeString(name)
    ensures Run(s, [KeyOf(name)]) == Done(s + [name])
  {
    RunOne(s, KeyOf(name));
  }

  lemma OneMore(s: seq<Value>, elements: seq<Value>, n: nat)
    requires 0 < n <= |elements|
    ensures s + elements[..n - 1] + [elements[n - 1]] == s + elements[..n]
  {
  }

  lemma TwoMore(s: seq<Value>, members: seq<Member>, n: nat)
    requires 0 < n <= |members|
    ensures s + Slots(members, n - 1) + [members[n - 1].name] + [members[n - 1].value] == s + Slots(members, n)
  {
  }

  lemma {:induction false} ElementsRoundTrip(s: seq<Value>, v: Value, n: nat)
    requires v.Arr? && Made(v) && n <= |v.elements|
    ensures Run(s, ElementEvents(v, n)) == Done(s + v.elements[..n])
    decreases v, 0, n
  {
    if n > 0 {
      var e, t := v.elements[n - 1], s + v.elements[..n - 1];
      ElementsRoundTrip(s, v, n - 1);
      RoundTrip(t, e);
      RunThen(s, ElementEvents(v, n - 1), t, Events(e), t + [e]);
      OneMore(s, v.elements, n);
    }
  }

  lemma {:induction false} MembersRoundTrip(s: seq<Value>, v: Value, n: nat)
    requires v.Obj? && Made(v) && n <= |v.members|
    ensures Run(s, MemberEvents(v, n)) == Done(s + Slots(v.members, n))
    decreases v, 0, n
  {
    if n > 0 {
      var m, t, a := v.members[n - 1], s + Slots(v.members, n - 1), MemberEvents(v, n - 1);
      MembersRoundTrip(s, v, n - 1);
      KeyPushes(t, m.name);
      RunThen(s, a, t, [KeyOf(m.name)], t + [m.name]);
      RoundTrip(t + [m.name], m.value);
      RunThen(s, a + [KeyOf(m.name)], t + [m.name], Events(m.value), t + [m.name] + [m.value]);
      TwoMore(s, v.members, n);
    }
  }

  lemma ReplaceTop(stack: seq<Value>, n: nat, v: Value)
    requires 0 < n <= |stack|
    ensures stack[..n][n - 1 := v] == stack[..n - 1] + [v]
  {
  }

  // ---------- The document and Accept ----------

  class Document {
    var root: Value
    var stack: seq<Value>

    constructor ()
      ensures root == Null && stack == []
    {
      root, stack := Null, [];
    }

    /** The handler methods that push one value. */
    method Push(v: Value)
      modifies `stack
      ensures stack == old(stack) + [v]
    {
      stack := stack + [v];
    }

    method EndObject(memberCount: nat) returns (ok: bool)
      requires |stack| >= 2 * memberCount + 1
      modifies `stack
      ensures ok && Step(old(stack), Event.EndObject(memberCount)) == Done(stack)
    {
      var slots := stack[|stack| - 2 * memberCount..];
      ReplaceTop(stack, |stack| - 2 * memberCount, Obj(Paired(slots)));
      stack := stack[..|stack| - 2 * memberCount];
      stack := stack[|stack| - 1 := Obj(Paired(slots))];
      ok := true;
    }

    method EndArray(elementCount: nat) returns (ok: bool)
      requires |stack| >= elementCount + 1
      modifies `stack
      ensures ok && Step(old(stack), Event.EndArray(elementCount)) == Done(stack)
    {
      var elements := stack[|stack| - elementCount..];
      ghost var filled := stack[..|stack| - elementCount - 1] + [Arr(elements)];
      ReplaceTop(stack, |stack| - elementCount, Arr(elements));
      assert Step(stack, Event.EndArray(elementCount)) == Done(filled);
      stack := stack[..|stack| - elementCount];
      stack := stack[|stack| - 1 := Arr(elements)];
      ok := true;
    }

    /** One event of a value that is neither an array nor an object. */
    method Scalar(v: Value) returns (ok: bool)
      requires Made(v) && !v.Obj? && !v.Arr?
      modifies `stack
      ensures ok && Run(old(stack), Events(v)) == Done(stack)
    {
      RunOne(stack, Events(v)[0]);
      match v {
        case Null => Push(Null);
        case Bool(b) => Push(Bool(b));
        case Num(flags, data) =>
          NumberRoundTrip(stack, v);
          match NumberEvent(flags, data) {
            case DoubleEvent(d) => Push(OfDouble(d));
            case IntEvent(i) => Push(OfInt(i));
            case UintEvent(u) => Push(OfUint(u));
            case Int64Event(l) => Push(OfInt64(l));
            case Uint64Event(ul) => Push(OfUint64(ul));
          }
        case Str(chars, kind) => Push(MakeStr(chars, HasCopyFlag(kind)));
      }
      ok := true;
    }

    /** Accept with this document as the handler. */
    method Accept(v: Value) returns (ok: bool)
      requires Made(v)
      modifies `stack
      ensures ok && Run(old(stack), Events(v)) == Done(stack) && stack == old(stack) + [v]
      decreases v
    {
      ghost var s := stack;
      RoundTrip(s, v);
      match v {
        case Obj(members) =>
          Push(Obj([]));
          var i := 0;
          while i < |members|
            invariant i <= |members| && stack == s + [Obj([])] + Slots(members, i)
          {
            Push(MakeStr(members[i].name.chars, HasCopyFlag(members[i].name.kind)));
            ok := Accept(members[i].value);
            TwoMore(s + [Obj([])], members, i + 1);
            i := i + 1;
          }
          ObjectCloses(s, members);
          SlotsAt(members, |members|);
          ok := EndObject(|members|);
        case Arr(elements) =>
          Push(Arr([]));
          var i := 0;
          while i < |elements|
            invariant i <= |elements| && stack == s + [Arr([])] + elements[..i]
          {
            ok := Accept(elements[i]);
            OneMore(s + [Arr([])], elements, i + 1);
            i := i + 1;
          }
          ArrayCloses(s, elements);
          assert elements[..i] == elements;
          ok := EndArray(|elements|);
        case _ =>
          ok := Scalar(v);
      }
    }

    /** Populate with a value's Accept as the generator: a deep clone. */
    method Populate(v: Value)
      requires Made(v) && stack == []
      modifies this
      ensures root == v && stack == []
    {
      var ok := Accept(v);
      if ok {
        root := stack[|stack| - 1];
        stack := stack[..|stack| - 1];
      }
      stack := [];
    }
  }
}
