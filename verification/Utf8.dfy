/** The two UTF-8 decoders: one refuses ill-formed input, one replaces it. */
module Utf8 {
  import opened Bytes

  const REPLACEMENT: nat := 0xFFFD

  predicate IsScalar(v: nat) {
    v <= 0x10FFFF && !(0xD800 <= v <= 0xDFFF)
  }

  predicate AllScalar(vs: seq<nat>) {
    forall i :: 0 <= i < |vs| ==> IsScalar(vs[i])
  }

  /** Section 3 of RFC 3629. */
  function Encode(v: nat): (s: bytes)
    requires IsScalar(v)
    ensures 1 <= |s| <= 4
  {
    var a := v / 64;
    var b := a / 64;
    var c := b / 64;
    if v < 0x80 then [v]
    else if v < 0x800 then [0xC0 + a, 0x80 + v % 64]
    else if v < 0x10000 then [0xE0 + b, 0x80 + a % 64, 0x80 + v % 64]
    else [0xF0 + c, 0x80 + b % 64, 0x80 + a % 64, 0x80 + v % 64]
  }

  predicate Follows(s: bytes, i: nat) {
    i < |s| && 0x80 <= s[i] <= 0xBF
  }

  /** What a lead byte and continuation bytes stand for: the bits after their marks, most significant first. */
  predicate Spells(s: bytes, v: int) {
    || (|s| == 1 && v == s[0] as int <= 0x7F)
    || (|s| == 2 && 0xC0 <= s[0] <= 0xDF && Follows(s, 1) && v == (s[0] as int - 0xC0) * 0x40 + (s[1] as int - 0x80))
    || (|s| == 3 && 0xE0 <= s[0] <= 0xEF && Follows(s, 1) && Follows(s, 2)
        && v == (s[0] as int - 0xE0) * 0x1000 + (s[1] as int - 0x80) * 0x40 + (s[2] as int - 0x80))
    || (|s| == 4 && 0xF0 <= s[0] <= 0xF7 && Follows(s, 1) && Follows(s, 2) && Follows(s, 3)
        && v == (s[0] as int - 0xF0) * 0x4_0000 + (s[1] as int - 0x80) * 0x1000 + (s[2] as int - 0x80) * 0x40
                + (s[3] as int - 0x80))
  }

  /** How many bytes a scalar value takes. */
  function SizeFor(v: nat): nat {
    if v < 0x80 then 1 else if v < 0x800 then 2 else if v < 0x1_0000 then 3 else 4
  }

  lemma Sixties(v: nat)
    ensures v == 0x40 * (v / 64) + v % 64
    ensures v == 0x1000 * (v / 64 / 64) + 0x40 * (v / 64 % 64) + v % 64
    ensures v == 0x4_0000 * (v / 64 / 64 / 64) + 0x1000 * (v / 64 / 64 % 64) + 0x40 * (v / 64 % 64) + v % 64
  {
    var a := v / 64;
    var b := a / 64;
    assert a == 64 * b + a % 64 && b == 64 * (b / 64) + b % 64;
  }

  lemma EncodeSpells(v: nat)
    requires IsScalar(v)
    ensures Spells(Encode(v), v) && |Encode(v)| == SizeFor(v)
  {
    Sixties(v);
  }

  lemma LowDigit(a: int, x: int, b: int, y: int)
    requires 0 <= x < 0x40 && 0 <= y < 0x40 && a * 0x40 + x == b * 0x40 + y
    ensures a == b && x == y
  {
  }

  lemma SpellsOnce(s: bytes, t: bytes, v: int)
    requires Spells(s, v) && Spells(t, v) && |s| == |t|
    ensures s == t
  {
    var x := seq(|s|, i requires 0 <= i < |s| => s[i] as int - 0x80);
    var y := seq(|t|, i requires 0 <= i < |t| => t[i] as int - 0x80);
    if |s| == 4 {
      LowDigit((x[0] * 0x40 + x[1]) * 0x40 + x[2], x[3], (y[0] * 0x40 + y[1]) * 0x40 + y[2], y[3]);
      LowDigit(x[0] * 0x40 + x[1], x[2], y[0] * 0x40 + y[1], y[2]);
      LowDigit(x[0], x[1], y[0], y[1]);
    } else if |s| == 3 {
      LowDigit(x[0] * 0x40 + x[1], x[2], y[0] * 0x40 + y[1], y[2]);
      LowDigit(x[0], x[1], y[0], y[1]);
    } else if |s| == 2 {
      LowDigit(x[0], x[1], y[0], y[1]);
    }
  }

  /** The encoding of a scalar value is the one spelling of it whose length its size calls for. */
  lemma EncodeIs(v: nat, s: bytes)
    requires IsScalar(v)
    ensures s == Encode(v) <==> Spells(s, v) && |s| == SizeFor(v)
  {
    hide Encode, Spells;
    EncodeSpells(v);
    if Spells(s, v) && |s| == SizeFor(v) { SpellsOnce(s, Encode(v), v); }
  }

  function EncodeAll(vs: seq<nat>): bytes
    requires AllScalar(vs)
  {
    if vs == [] then [] else Encode(vs[0]) + EncodeAll(vs[1..])
  }

  lemma EncodeOne(v: nat)
    requires IsScalar(v)
    ensures EncodeAll([v]) == Encode(v)
  {
    hide Encode;
    assert [v][1..] == [] && EncodeAll([]) == [];
  }

  /** The encodings stand one after the other. */
  lemma {:induction false} EncodeAppend(a: seq<nat>, b: seq<nat>)
    requires AllScalar(a) && AllScalar(b)
    ensures AllScalar(a + b) && EncodeAll(a + b) == EncodeAll(a) + EncodeAll(b)
  {
    hide Encode;
    if a == [] {
      assert a + b == b;
    } else {
      EncodeAppend(a[1..], b);
      assert (a + b)[1..] == a[1..] + b;
    }
  }

  // ----------------------------------------------------------------- strict

  datatype Utf8Fault = InvalidLead | Truncated | BadContinuation | NonScalar

  datatype Decoded<+T> = Ok(value: T) | Err(fault: Utf8Fault)

  predicate IsContinuation(b: byte) {
    b / 64 == 2
  }

  /** The length a first byte announces, or 0. */
  function Length(first: byte): nat {
    if first <= 0x7F then 1
    else if 0xC2 <= first <= 0xDF then 2
    else if 0xE0 <= first <= 0xEF then 3
    else if 0xF0 <= first <= 0xF4 then 4
    else 0
  }

  function LeadBits(first: byte): nat {
    if first <= 0x7F then first
    else if 0xC2 <= first <= 0xDF then first % 32
    else if 0xE0 <= first <= 0xEF then first % 16
    else first % 8
  }

  predicate AllContinuations(s: bytes) {
    forall i :: 0 <= i < |s| ==> IsContinuation(s[i])
  }

  /** The six payload bits of a continuation byte. */
  function Low6(b: byte): nat {
    b % 64
  }

  /** Shifting six bits in for every byte. */
  function Shifted(v: nat, s: bytes): nat {
    if s == [] then v else Shifted(v, s[..|s| - 1]) * 64 + Low6(s[|s| - 1])
  }

  function StrictStep(s: bytes): Decoded<(nat, nat)>
    requires s != []
  {
    var n := Length(s[0]);
    if n == 0 then Err(InvalidLead)
    else if n > |s| then Err(Truncated)
    else if !AllContinuations(s[1..n]) then Err(BadContinuation)
    else
      var v := Shifted(LeadBits(s[0]), s[1..n]);
      if (n == 2 && v < 0x80) || (n == 3 && v < 0x800) || (n == 4 && v < 0x10000) || !IsScalar(v) then Err(NonScalar)
      else Ok((v, n))
  }

  function StrictDecode(acc: seq<nat>, s: bytes): Decoded<seq<nat>>
    decreases |s|
  {
    if s == [] then Ok(acc)
    else
      match StrictStep(s)
      case Err(f) => Err(f)
      case Ok((v, n)) => StrictDecode(acc + [v], s[n..])
  }

  lemma StrictOne(acc: seq<nat>, s: bytes)
    requires s != []
    ensures StrictStep(s).Err? ==> StrictDecode(acc, s) == Err(StrictStep(s).fault)
    ensures StrictStep(s).Ok? ==>
      var (v, n) := StrictStep(s).value; n <= |s| && StrictDecode(acc, s) == StrictDecode(acc + [v], s[n..])
  {
    hide Shifted, LeadBits, AllContinuations;
  }

  lemma TailPush(v: nat, s: bytes, j: nat)
    requires 1 <= j < |s| && IsContinuation(s[j]) && AllContinuations(s[1..j])
    ensures AllContinuations(s[1..j + 1]) && Shifted(v, s[1..j + 1]) == Shifted(v, s[1..j]) * 64 + Low6(s[j])
  {
    hide IsContinuation, Low6;
    var tail := s[1..j + 1];
    assert tail[..|tail| - 1] == s[1..j] && tail[|tail| - 1] == s[j];
  }

  lemma TailBroken(s: bytes, j: nat, n: nat)
    requires 1 <= j < n <= |s| && !IsContinuation(s[j])
    ensures !AllContinuations(s[1..n])
  {
    assert s[1..n][j - 1] == s[j];
  }

  lemma TailEmpty(v: nat, s: bytes)
    requires s != []
    ensures AllContinuations(s[1..1]) && Shifted(v, s[1..1]) == v
  {
  }

  lemma WholeInput(s: bytes)
    ensures s[0..] == s
  {
  }

  lemma StrictDone(acc: seq<nat>, s: bytes)
    ensures StrictDecode(acc, s[|s|..]) == Ok(acc)
  {
  }

  method DecodeStrict(input: bytes) returns (output: seq<nat>, fault: Option<Utf8Fault>)
    ensures match StrictDecode([], input)
            case Err(f) => fault == Some(f)
            case Ok(vs) => fault == None && output == vs
  {
    hide Shifted, AllContinuations, IsContinuation, LeadBits, Low6, StrictDecode;
    output := [];
    var i := 0;
    WholeInput(input);
    while i < |input|
      invariant i <= |input|
      invariant StrictDecode(output, input[i..]) == StrictDecode([], input)
    {
      ghost var s := input[i..];
      StrictOne(output, s);
      var first := input[i];
      var n := Length(first);
      var value := LeadBits(first);
      if n == 0 { return output, Some(InvalidLead); }
      if i + n > |input| { return output, Some(Truncated); }
      TailEmpty(value, s);
      for j := 1 to n
        invariant AllContinuations(s[1..j]) && value == Shifted(LeadBits(first), s[1..j])
      {
        if !IsContinuation(input[i + j]) {
          TailBroken(s, j, n);
          return output, Some(BadContinuation);
        }
        TailPush(LeadBits(first), s, j);
        value := value * 64 + Low6(input[i + j]);
      }
      if (n == 2 && value < 0x80) || (n == 3 && value < 0x800) || (n == 4 && value < 0x10000) || !IsScalar(value) {
        return output, Some(NonScalar);
      }
      DropTwice(input, i, n);
      output := output + [value];
      i := i + n;
    }
    StrictDone(output, input);
    return output, None;
  }

  /** Appending six payload bits, and taking them off again. */
  function Push6(v: nat, low: nat): nat {
    v * 64 + low
  }

  lemma ShiftedUnrolled(v: nat, s: bytes)
    ensures |s| == 0 ==> Shifted(v, s) == v
    ensures |s| == 1 ==> Shifted(v, s) == Push6(v, Low6(s[0]))
    ensures |s| == 2 ==> Shifted(v, s) == Push6(Push6(v, Low6(s[0])), Low6(s[1]))
    ensures |s| == 3 ==> Shifted(v, s) == Push6(Push6(Push6(v, Low6(s[0])), Low6(s[1])), Low6(s[2]))
  {
    hide Low6;
    if |s| >= 1 { assert s[..1][..0] == []; }
    if |s| >= 2 { assert s[..2][..1] == s[..1]; }
    if |s| == 1 { assert s[..1] == s; }
    if |s| == 2 { assert s[..2] == s; ShiftedUnrolled(v, s[..1]); }
    if |s| == 3 { ShiftedUnrolled(v, s[..2]); }
  }

  lemma Pop6(v: nat, low: nat)
    requires low < 64
    ensures Push6(v, low) / 64 == v && Push6(v, low) % 64 == low
  {
  }

  lemma PushPop6(v: nat)
    ensures Push6(v / 64, v % 64) == v
  {
  }

  lemma Continuation(low: nat)
    requires low < 64
    ensures IsContinuation(0x80 + low) && Low6(0x80 + low) == low
  {
  }

  lemma ContinuationBack(b: byte)
    requires IsContinuation(b)
    ensures Low6(b) < 64 && b == 0x80 + Low6(b)
  {
  }

  /** Whether a value is not encoded in more bytes than it needs. */
  predicate Shortest(v: nat, n: nat) {
    !(n == 2 && v < 0x80) && !(n == 3 && v < 0x800) && !(n == 4 && v < 0x10000)
  }

  /** What a first byte adds to its payload bits. */
  function LeadBase(n: nat): nat {
    if n == 1 then 0 else if n == 2 then 0xC0 else if n == 3 then 0xE0 else 0xF0
  }

  lemma LeadBack(first: byte)
    requires Length(first) > 0
    ensures first as int == LeadBase(Length(first)) + LeadBits(first)
  {
  }

  lemma LeadOf(n: nat, bits: nat)
    requires 1 <= n <= 4
    requires bits < (if n == 1 then 0x80 else if n == 2 then 0x20 else if n == 3 then 0x10 else 5)
    requires n == 2 ==> bits >= 2
    ensures Length(LeadBase(n) + bits) == n && LeadBits(LeadBase(n) + bits) == bits
  {
  }

  lemma DecodeOfEncode(v: nat)
    requires IsScalar(v)
    ensures var e := Encode(v);
      Length(e[0]) == |e| && AllContinuations(e[1..]) && Shifted(LeadBits(e[0]), e[1..]) == v && Shortest(v, |e|)
  {
    hide IsContinuation, Low6, Push6, Shifted, Length, LeadBits;
    var e := Encode(v);
    var a := v / 64;
    var b := a / 64;
    ShiftedUnrolled(LeadBits(e[0]), e[1..]);
    Continuation(v % 64); Continuation(a % 64); Continuation(b % 64);
    PushPop6(v); PushPop6(a); PushPop6(b);
    if v < 0x80 { LeadOf(1, v); }
    else if v < 0x800 { LeadOf(2, a); }
    else if v < 0x10000 { LeadOf(3, b); }
    else { LeadOf(4, b / 64); }
  }

  lemma EncodeOfDecode(e: bytes)
    requires e != [] && Length(e[0]) == |e| && AllContinuations(e[1..])
    requires var v := Shifted(LeadBits(e[0]), e[1..]); IsScalar(v) && Shortest(v, |e|)
    ensures Encode(Shifted(LeadBits(e[0]), e[1..])) == e
  {
    hide IsContinuation, Low6, Shifted, Push6, LeadBits;
    ShiftedUnrolled(LeadBits(e[0]), e[1..]);
    forall k | 1 <= k < |e| ensures e[k] as int == 0x80 + Low6(e[k]) && Low6(e[k]) < 64 {
      assert e[1..][k - 1] == e[k];
      ContinuationBack(e[k]);
    }
    LeadBack(e[0]);
    var lead := LeadBits(e[0]);
    if |e| >= 2 { Pop6(lead, Low6(e[1])); }
    if |e| >= 3 { Pop6(Push6(lead, Low6(e[1])), Low6(e[2])); }
    if |e| >= 4 { Pop6(Push6(Push6(lead, Low6(e[1])), Low6(e[2])), Low6(e[3])); }
  }

  /** One step of the strict decoder succeeds exactly on the encoding of a scalar value, and yields that value. */
  lemma StrictStepMeans(s: bytes, v: nat, n: nat)
    requires s != []
    ensures StrictStep(s) == Ok((v, n)) <==> IsScalar(v) && Encode(v) <= s && n == |Encode(v)|
  {
    hide Encode, Shifted, LeadBits, IsContinuation, Length;
    if StrictStep(s) == Ok((v, n)) {
      assert s[..n][1..] == s[1..n];
      EncodeOfDecode(s[..n]);
    }
    if IsScalar(v) && Encode(v) <= s && n == |Encode(v)| {
      DecodeOfEncode(v);
      assert s[..n] == Encode(v) && s[1..n] == Encode(v)[1..];
    }
  }

  lemma {:induction false} StrictDecodeOfEncode(acc: seq<nat>, vs: seq<nat>)
    requires AllScalar(vs)
    ensures StrictDecode(acc, EncodeAll(vs)) == Ok(acc + vs)
    decreases |vs|
  {
    hide Encode, StrictStep;
    if vs == [] {
      assert acc + vs == acc;
    } else {
      var s := EncodeAll(vs);
      StrictStepMeans(s, vs[0], |Encode(vs[0])|);
      assert s[|Encode(vs[0])|..] == EncodeAll(vs[1..]);
      StrictDecodeOfEncode(acc + [vs[0]], vs[1..]);
      assert acc + [vs[0]] + vs[1..] == acc + vs;
    }
  }

  lemma {:induction false} StrictDecodeBack(acc: seq<nat>, s: bytes)
    requires StrictDecode(acc, s).Ok?
    ensures var vs := StrictDecode(acc, s).value;
      acc <= vs && AllScalar(vs[|acc|..]) && EncodeAll(vs[|acc|..]) == s
    decreases |s|
  {
    hide Encode, StrictStep;
    var vs := StrictDecode(acc, s).value;
    if s == [] {
      assert vs[|acc|..] == [];
    } else {
      var (v, n) := StrictStep(s).value;
      StrictStepMeans(s, v, n);
      StrictDecodeBack(acc + [v], s[n..]);
      assert vs[|acc|..][0] == v && vs[|acc|..][1..] == vs[|acc| + 1..];
      assert s == Encode(v) + s[n..];
    }
  }

  /** The strict decoder accepts exactly the well-formed sequences, and inverts encoding on them. */
  lemma StrictMeans(s: bytes, vs: seq<nat>)
    ensures StrictDecode([], s) == Ok(vs) <==> AllScalar(vs) && EncodeAll(vs) == s
  {
    if StrictDecode([], s) == Ok(vs) {
      StrictDecodeBack([], s);
      assert vs[0..] == vs;
    }
    if AllScalar(vs) && EncodeAll(vs) == s {
      StrictDecodeOfEncode([], vs);
      assert [] + vs == vs;
    }
  }

  // ------------------------------------------------------------------ lossy

  /** The second bytes that keep the value scalar and shortest. */
  predicate SecondInRange(first: byte, second: byte) {
    !(first == 0xE0 && second < 0xA0) && !(first == 0xED && second > 0x9F) &&
    !(first == 0xF0 && second < 0x90) && !(first == 0xF4 && second > 0x8F)
  }

  function LossyTail(s: bytes, j: nat, value: nat): (r: (Option<nat>, nat))
    requires 2 <= j <= |s| && j <= Length(s[0])
    ensures j <= r.1 <= |s|
    decreases Length(s[0]) - j
  {
    if j == Length(s[0]) then (Some(value), j)
    else if j == |s| || !IsContinuation(s[j]) then (None, j)
    else LossyTail(s, j + 1, value * 64 + Low6(s[j]))
  }

  /** One step of the lossy decoder: a scalar value, or None for a replacement, and the bytes it uses up. */
  function LossyStep(s: bytes): (r: (Option<nat>, nat))
    requires s != []
    ensures 1 <= r.1 <= |s|
  {
    if s[0] <= 0x7F then (Some(s[0]), 1)
    else if Length(s[0]) == 0 || |s| == 1 then (None, 1)
    else if !IsContinuation(s[1]) || !SecondInRange(s[0], s[1]) then (None, 1)
    else LossyTail(s, 2, LeadBits(s[0]) * 64 + Low6(s[1]))
  }

  function ValueOr(v: Option<nat>): nat {
    if v.Some? then v.value else REPLACEMENT
  }

  function LossyDecode(acc: seq<nat>, s: bytes): seq<nat>
    decreases |s|
  {
    if s == [] then acc
    else
      var (v, n) := LossyStep(s);
      LossyDecode(acc + [ValueOr(v)], s[n..])
  }

  lemma LossyOne(acc: seq<nat>, s: bytes)
    requires s != []
    ensures var (v, n) := LossyStep(s); LossyDecode(acc, s) == LossyDecode(acc + [ValueOr(v)], s[n..])
  {
  }

  lemma LossyDone(acc: seq<nat>, s: bytes)
    ensures LossyDecode(acc, s[|s|..]) == acc
  {
  }

  method DecodeLossy(input: bytes) returns (output: seq<nat>)
    ensures output == LossyDecode([], input)
  {
    hide IsContinuation, SecondInRange, LeadBits, Low6, LossyDecode;
    output := [];
    var i := 0;
    WholeInput(input);
    while i < |input|
      invariant i <= |input|
      invariant LossyDecode(output, input[i..]) == LossyDecode([], input)
    {
      ghost var s := input[i..];
      ghost var (v, n) := LossyStep(s);
      LossyOne(output, s);
      DropTwice(input, i, n);
      var first := input[i];
      if first <= 0x7F {
        output := output + [first];
        i := i + 1;
        continue;
      }
      var length := Length(first);
      if length == 0 {
        output := output + [REPLACEMENT];
        i := i + 1;
        continue;
      }
      if i + 1 >= |input| {
        output := output + [REPLACEMENT];
        i := |input|;
        break;
      }
      var second := input[i + 1];
      if !IsContinuation(second) || !SecondInRange(first, second) {
        output := output + [REPLACEMENT];
        i := i + 1;
        continue;
      }
      var value: nat := LeadBits(first) * 64 + Low6(second);
      var invalid := false;
      var j := 2;
      while j < length && !invalid
        invariant 2 <= j <= length && j <= |s|
        invariant LossyTail(s, j, value) == (v, n)
        invariant invalid ==> (v, n) == (None, j)
        decreases length - j, !invalid
      {
        if i + j >= |input| || !IsContinuation(input[i + j]) {
          invalid := true;
        } else {
          value := value * 64 + Low6(input[i + j]);
          j := j + 1;
        }
      }
      output := output + [if invalid then REPLACEMENT else value];
      i := i + j;
    }
    LossyDone(output, input);
  }

  // ------------------------------- what the lossy decoder means (section 3.9 of the Unicode Standard)

  /** An initial subsequence of a well-formed sequence. */
  ghost predicate Initial(t: bytes) {
    exists vs :: AllScalar(vs) && t <= EncodeAll(vs)
  }

  ghost predicate Convertible(s: bytes) {
    exists v :: IsScalar(v) && Encode(v) <= s
  }

  /** The longest piece at an unconvertible offset that starts a well-formed sequence, or one byte. */
  ghost predicate MaximalSubpart(s: bytes, k: nat) {
    1 <= k <= |s| && (k == 1 || Initial(s[..k])) && forall j :: k < j <= |s| ==> !Initial(s[..j])
  }

  ghost predicate Segment(s: bytes, v: nat, n: nat) {
    if Convertible(s) then IsScalar(v) && Encode(v) <= s && n == |Encode(v)|
    else v == REPLACEMENT && MaximalSubpart(s, n)
  }

  /** The output that replaces every maximal subpart by one U+FFFD and converts the rest. */
  ghost predicate Replaced(s: bytes, output: seq<nat>)
    decreases |s|
  {
    if s == [] then output == []
    else output != [] && exists n :: 1 <= n <= |s| && Segment(s, output[0], n) && Replaced(s[n..], output[1..])
  }

  lemma SecondMakesScalar(first: byte, s: bytes)
    requires 2 <= Length(first) == |s| + 1 && AllContinuations(s) && SecondInRange(first, s[0])
    ensures var v := Shifted(LeadBits(first), s); IsScalar(v) && Shortest(v, |s| + 1)
  {
    hide LeadBits, Low6, IsContinuation;
    LeadBack(first);
    ShiftedUnrolled(LeadBits(first), s);
    forall k | 0 <= k < |s| ensures s[k] as int == 0x80 + Low6(s[k]) && Low6(s[k]) < 64 { ContinuationBack(s[k]); }
  }

  lemma ScalarHasSecond(first: byte, s: bytes)
    requires 2 <= Length(first) == |s| + 1 && AllContinuations(s)
    requires var v := Shifted(LeadBits(first), s); IsScalar(v) && Shortest(v, |s| + 1)
    ensures SecondInRange(first, s[0])
  {
    hide LeadBits, Low6, IsContinuation;
    LeadBack(first);
    ShiftedUnrolled(LeadBits(first), s);
    forall k | 0 <= k < |s| ensures s[k] as int == 0x80 + Low6(s[k]) && Low6(s[k]) < 64 { ContinuationBack(s[k]); }
  }

  /** What the tail of a step does, from byte `j` on. */
  lemma {:induction false} LossyTailMeans(s: bytes, j: nat)
    requires 2 <= j <= |s| && j <= Length(s[0]) && AllContinuations(s[1..j])
    ensures var n := Length(s[0]);
      var r := LossyTail(s, j, Shifted(LeadBits(s[0]), s[1..j]));
      && (r.0.Some? <==> n <= |s| && AllContinuations(s[1..n]))
      && (r.0.Some? ==> r == (Some(Shifted(LeadBits(s[0]), s[1..n])), n))
      && (r.0.None? ==> r.1 < n && AllContinuations(s[1..r.1]) && (r.1 == |s| || !IsContinuation(s[r.1])))
    decreases Length(s[0]) - j
  {
    hide IsContinuation, LeadBits, Low6;
    var n := Length(s[0]);
    if j < n && j < |s| {
      if IsContinuation(s[j]) {
        assert s[1..j + 1] == s[1..j] + [s[j]];
        LossyTailMeans(s, j + 1);
      } else if n <= |s| {
        assert s[1..n][j - 1] == s[j];
      }
    }
  }

  lemma ShiftedOne(v: nat, s: bytes)
    requires |s| >= 2
    ensures Shifted(v, s[1..2]) == v * 64 + Low6(s[1]) && s[1..2] == [s[1]]
  {
    hide Low6;
    ShiftedUnrolled(v, s[1..2]);
  }

  lemma LeadIsAscii(first: byte)
    ensures first <= 0x7F ==> Length(first) == 1 && LeadBits(first) == first
  {
  }

  /** The lossy decoder converts where, and as, the strict one does. */
  lemma LossyStepStrict(s: bytes)
    requires s != []
    ensures LossyStep(s).0.Some? <==> StrictStep(s).Ok?
    ensures LossyStep(s).0.Some? ==> StrictStep(s) == Ok((LossyStep(s).0.value, LossyStep(s).1))
  {
    hide IsContinuation, LeadBits, Low6, SecondInRange;
    var n := Length(s[0]);
    LeadIsAscii(s[0]);
    if n == 1 {
      assert s[1..1] == [];
    } else if n >= 2 && |s| >= 2 {
      ShiftedOne(LeadBits(s[0]), s);
      if n <= |s| && AllContinuations(s[1..n]) {
        assert s[1..n][0] == s[1];
        if SecondInRange(s[0], s[1]) {
          SecondMakesScalar(s[0], s[1..n]);
        } else if StrictStep(s).Ok? {
          ScalarHasSecond(s[0], s[1..n]);
        }
      }
      if IsContinuation(s[1]) {
        LossyTailMeans(s, 2);
      }
    }
  }

  lemma LeadNotAscii(first: byte)
    ensures first > 0x7F ==> Length(first) != 1
  {
  }

  /** The first encoding of a well-formed sequence shows in each of its initial subsequences. */
  lemma InitialMeans(t: bytes, vs: seq<nat>)
    requires |t| >= 2 && AllScalar(vs) && t <= EncodeAll(vs) && t[0] > 0x7F
    ensures Length(t[0]) >= 2
    ensures forall k :: 1 <= k < |t| && k < Length(t[0]) ==> IsContinuation(t[k])
    ensures SecondInRange(t[0], t[1])
  {
    hide IsContinuation, Shifted, LeadBits, SecondInRange, Encode;
    var e := Encode(vs[0]);
    DecodeOfEncode(vs[0]);
    assert forall k :: 0 <= k < |t| && k < |e| ==> t[k] == EncodeAll(vs)[k] == e[k];
    assert |e| >= 2 by { LeadNotAscii(e[0]); }
    forall k | 1 <= k < |t| && k < |e| ensures IsContinuation(t[k]) { assert e[1..][k - 1] == t[k]; }
    ScalarHasSecond(e[0], e[1..]);
  }

  /** A prefix of good bytes, cut short, starts some well-formed sequence. */
  lemma GoodPrefixIsInitial(t: bytes)
    requires 2 <= |t| < Length(t[0]) && AllContinuations(t[1..]) && SecondInRange(t[0], t[1])
    ensures Initial(t)
  {
    hide LeadBits, SecondInRange;
    var more: bytes := seq(Length(t[0]) - |t|, i => 0x80);
    var e := t + more;
    assert AllContinuations(e[1..]) by {
      forall k | 0 <= k < |e[1..]| ensures IsContinuation(e[1..][k]) {
        assert k < |t| - 1 ==> e[1..][k] == t[1..][k];
      }
    }
    SecondMakesScalar(e[0], e[1..]);
    EncodeOfDecode(e);
    var v := Shifted(LeadBits(e[0]), e[1..]);
    assert EncodeAll([v]) == Encode(v) + [] == e;
    assert AllScalar([v]) && t <= EncodeAll([v]);
  }

  lemma ConvertibleMeans(s: bytes)
    requires s != []
    ensures Convertible(s) <==> StrictStep(s).Ok?
  {
    hide Encode, StrictStep;
    if StrictStep(s).Ok? {
      var (v, n) := StrictStep(s).value;
      StrictStepMeans(s, v, n);
    }
    if Convertible(s) {
      var v :| IsScalar(v) && Encode(v) <= s;
      StrictStepMeans(s, v, |Encode(v)|);
    }
  }

  /** Where the lossy decoder does not convert, what it skips is the maximal subpart. */
  lemma SkipsMaximalSubpart(s: bytes)
    requires s != [] && LossyStep(s).0.None?
    ensures MaximalSubpart(s, LossyStep(s).1)
  {
    hide IsContinuation, LeadBits, Low6, SecondInRange, Encode, EncodeAll;
    var k := LossyStep(s).1;
    if Length(s[0]) >= 2 && |s| >= 2 {
      ShiftedOne(LeadBits(s[0]), s);
      if IsContinuation(s[1]) && SecondInRange(s[0], s[1]) {
        LossyTailMeans(s, 2);
        assert s[..k][1..] == s[1..k];
        GoodPrefixIsInitial(s[..k]);
      }
    }
    forall j | k < j <= |s|
      ensures !Initial(s[..j])
    {
      if Initial(s[..j]) {
        var vs :| AllScalar(vs) && s[..j] <= EncodeAll(vs);
        InitialMeans(s[..j], vs);
      }
    }
  }

  /** Each step takes exactly the segment the Unicode Standard asks for, and emits what it asks for. */
  lemma LossyStepMeans(s: bytes, v: nat, n: nat)
    requires s != []
    ensures Segment(s, v, n) <==> v == ValueOr(LossyStep(s).0) && n == LossyStep(s).1
  {
    hide Encode, StrictStep, LossyStep;
    LossyStepStrict(s);
    ConvertibleMeans(s);
    if Convertible(s) {
      StrictStepMeans(s, v, n);
      StrictStepMeans(s, LossyStep(s).0.value, LossyStep(s).1);
    } else {
      SkipsMaximalSubpart(s);
    }
  }

  lemma {:induction false} LossyDecodeAppends(acc: seq<nat>, s: bytes)
    ensures LossyDecode(acc, s) == acc + LossyDecode([], s)
    decreases |s|
  {
    hide LossyStep;
    if s != [] {
      var (v, n) := LossyStep(s);
      LossyDecodeAppends(acc + [ValueOr(v)], s[n..]);
      LossyDecodeAppends([ValueOr(v)], s[n..]);
      assert [] + [ValueOr(v)] == [ValueOr(v)];
    }
  }

  /** For every byte string the output is the one with a U+FFFD per maximal subpart, and no other. */
  lemma {:induction false} LossyMeans(s: bytes, output: seq<nat>)
    ensures LossyDecode([], s) == output <==> Replaced(s, output)
    decreases |s|
  {
    hide LossyStep, Segment;
    if s != [] {
      var (v, n) := LossyStep(s);
      LossyDecodeAppends([] + [ValueOr(v)], s[n..]);
      LossyStepMeans(s, ValueOr(v), n);
      if output != [] {
        LossyMeans(s[n..], output[1..]);
        forall m | Segment(s, output[0], m) ensures m == n && output[0] == ValueOr(v) {
          LossyStepMeans(s, output[0], m);
        }
        assert output == [output[0]] + output[1..];
      }
    }
  }

  lemma {:induction false} LossyIsScalar(s: bytes)
    ensures AllScalar(LossyDecode([], s))
    decreases |s|
  {
    hide LossyStep, StrictStep, Encode;
    if s != [] {
      var (v, n) := LossyStep(s);
      LossyDecodeAppends([] + [ValueOr(v)], s[n..]);
      LossyIsScalar(s[n..]);
      LossyStepStrict(s);
      if v.Some? { StrictStepMeans(s, v.value, n); }
    }
  }

  /** On encodings the lossy decoder returns what was encoded. */
  lemma {:induction false} LossyOfEncode(vs: seq<nat>)
    requires AllScalar(vs)
    ensures LossyDecode([], EncodeAll(vs)) == vs
  {
    hide LossyStep, StrictStep, Encode;
    if vs != [] {
      var s, n := EncodeAll(vs), |Encode(vs[0])|;
      StrictStepMeans(s, vs[0], n);
      LossyStepStrict(s);
      assert s[n..] == EncodeAll(vs[1..]);
      LossyDecodeAppends([] + [vs[0]], s[n..]);
      LossyOfEncode(vs[1..]);
    }
  }

  /** The decoders agree exactly on what the strict one accepts: there, and only there, re-encoding gives it back. */
  lemma DecodersAgree(s: bytes)
    ensures AllScalar(LossyDecode([], s))
    ensures StrictDecode([], s).Ok? <==> EncodeAll(LossyDecode([], s)) == s
    ensures StrictDecode([], s).Ok? ==> StrictDecode([], s).value == LossyDecode([], s)
  {
    hide StrictDecode, LossyDecode, Encode;
    LossyIsScalar(s);
    StrictMeans(s, LossyDecode([], s));
    if StrictDecode([], s).Ok? {
      StrictMeans(s, StrictDecode([], s).value);
      LossyOfEncode(StrictDecode([], s).value);
    }
  }
}
