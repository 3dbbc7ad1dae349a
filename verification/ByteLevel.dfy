/** The ByteLevel alphabet: one printable code point for each of the 256 bytes, and the pieces spelled in it. */
module ByteLevel {
  import opened Bytes
  import opened Utf8

  predicate IsDirect(b: nat) {
    0x21 <= b <= 0x7E || 0xA1 <= b <= 0xAC || 0xAE <= b <= 0xFF
  }

  /** How many of the first `b` bytes do not stand for themselves. */
  function Indirect(b: nat): nat {
    if b == 0 then 0 else Indirect(b - 1) + if IsDirect(b - 1) then 0 else 1
  }

  /** The code point a byte is spelled with: itself, or the next one from 256 on. */
  function CodePointOf(b: byte): nat {
    if IsDirect(b) then b else 256 + Indirect(b)
  }

  lemma {:induction false} IndirectGrows(a: nat, b: nat)
    requires a <= b
    ensures Indirect(a) <= Indirect(b) <= Indirect(a) + (b - a)
    ensures a < b && !IsDirect(a) ==> Indirect(a) < Indirect(b)
  {
    hide IsDirect;
    if a < b {
      IndirectGrows(a, b - 1);
    }
  }

  lemma IndirectStarts()
    ensures Indirect(0) == 0
  {
  }

  /** No two bytes share a code point, and every code point is a scalar value. */
  lemma AlphabetIsInjective(a: byte, b: byte)
    ensures CodePointOf(a) == CodePointOf(b) ==> a == b
    ensures IsScalar(CodePointOf(a))
  {
    hide Indirect;
    if a <= b { IndirectGrows(a, b); } else { IndirectGrows(b, a); }
    IndirectGrows(0, a);
    assert Indirect(0) == 0 by { IndirectStarts(); }
  }

  lemma {:induction false} IndirectRuns(b: nat)
    requires b <= 0x100
    ensures Indirect(b) == if b <= 0x21 then b else if b <= 0x7F then 0x21 else if b <= 0xA1 then b - 0x5E
                           else if b <= 0xAD then 0x43 else 0x44
  {
    if b > 0 { IndirectRuns(b - 1); }
  }

  /** The alphabet in full: printable bytes stand for themselves, and the others for 256 and on. */
  lemma AlphabetIs(b: byte)
    ensures CodePointOf(b) as int == if b <= 0x20 then 0x100 + b else if 0x7F <= b <= 0xA0 then b as int + 0xA2
                                     else if b == 0xAD then 0x143 else b
  {
    IndirectRuns(b);
  }

  ghost predicate IsInverse(m: map<nat, byte>) {
    && (forall b: byte :: CodePointOf(b) in m && m[CodePointOf(b)] == b)
    && (forall c :: c in m ==> CodePointOf(m[c]) == c)
  }

  /** What the table holds while it is built: the bytes entered so far, under their code points. */
  ghost predicate Holds(m: map<nat, byte>, entered: set<nat>) {
    && (forall b: byte :: b in entered ==> CodePointOf(b) in m && m[CodePointOf(b)] == b)
    && (forall c :: c in m ==> m[c] in entered && CodePointOf(m[c]) == c)
  }

  /** `emplace`: an entry that is already there stays. */
  function Emplace(m: map<nat, byte>, c: nat, b: byte): map<nat, byte> {
    if c in m then m else m[c := b]
  }

  lemma EmplaceHolds(m: map<nat, byte>, entered: set<nat>, b: byte)
    requires Holds(m, entered)
    ensures Holds(Emplace(m, CodePointOf(b), b), entered + {b})
  {
    hide CodePointOf;
    forall a: byte ensures CodePointOf(a) == CodePointOf(b) ==> a == b { AlphabetIsInjective(a, b); }
  }

  method AddDirect(m: map<nat, byte>, direct: set<nat>, first: byte, last: byte)
    returns (r: map<nat, byte>, newDirect: set<nat>)
    requires first <= last && Holds(m, direct) && forall b :: first <= b <= last ==> IsDirect(b)
    ensures Holds(r, newDirect)
    ensures forall b :: b in newDirect <==> b in direct || first <= b <= last
  {
    r, newDirect := m, direct;
    for value := first to last + 1
      invariant Holds(r, newDirect)
      invariant forall b :: b in newDirect <==> b in direct || first <= b < value
    {
      EmplaceHolds(r, newDirect, value);
      newDirect := newDirect + {value};
      r := Emplace(r, value, value);
    }
  }

  lemma NothingHeld()
    ensures Holds(map[], {})
  {
  }

  lemma AllHeld(m: map<nat, byte>, entered: set<nat>)
    requires Holds(m, entered) && forall b: byte :: b in entered
    ensures IsInverse(m)
  {
    hide CodePointOf;
  }

  lemma IndirectStep(b: byte)
    ensures Indirect(b + 1) == Indirect(b) + if IsDirect(b) then 0 else 1
  {
  }

  lemma IndirectCodePoint(b: byte)
    requires !IsDirect(b)
    ensures CodePointOf(b) == 256 + Indirect(b)
  {
  }

  /** The table the codec builds: the exact inverse of the alphabet, on all 256 bytes and on nothing else. */
  method InverseAlphabet() returns (result: map<nat, byte>)
    ensures IsInverse(result)
  {
    hide CodePointOf, Holds, Indirect, Emplace, IsInverse;
    var direct: set<nat> := {};
    NothingHeld();
    result := map[];
    result, direct := AddDirect(result, direct, 0x21, 0x7E);
    result, direct := AddDirect(result, direct, 0xA1, 0xAC);
    result, direct := AddDirect(result, direct, 0xAE, 0xFF);
    assert forall b: byte :: b in direct <==> IsDirect(b);
    hide IsDirect;
    var extra := 0;
    IndirectStarts();
    ghost var entered := direct;
    for value := 0 to 256
      invariant extra == Indirect(value)
      invariant Holds(result, entered) && forall b :: b in direct || 0 <= b < value ==> b in entered
    {
      IndirectStep(value);
      if value !in direct {
        EmplaceHolds(result, entered, value);
        IndirectCodePoint(value);
        result := Emplace(result, 256 + extra, value);
        entered := entered + {value};
        extra := extra + 1;
      }
    }
    AllHeld(result, entered);
  }

  // ----------------------------------------------------------------- pieces

  function CodePoints(piece: bytes): (r: seq<nat>)
    ensures |r| == |piece| && forall i :: 0 <= i < |r| ==> r[i] == CodePointOf(piece[i])
  {
    seq(|piece|, i requires 0 <= i < |piece| => CodePointOf(piece[i]))
  }

  lemma ScalarPoints(piece: bytes)
    ensures AllScalar(CodePoints(piece))
  {
    forall i | 0 <= i < |piece| ensures IsScalar(CodePointOf(piece[i])) { AlphabetIsInjective(piece[i], piece[i]); }
  }

  /** The vocabulary string of a piece. */
  function Spell(piece: bytes): bytes {
    ScalarPoints(piece);
    EncodeAll(CodePoints(piece))
  }

  /** Byte for byte: the encoding of its code point. */
  lemma SpellOne(b: byte)
    ensures IsScalar(CodePointOf(b)) && Spell([b]) == Encode(CodePointOf(b))
  {
    AlphabetIsInjective(b, b);
    EncodeOne(CodePointOf(b));
    assert CodePoints([b]) == [CodePointOf(b)];
  }

  lemma SpellAppend(a: bytes, b: bytes)
    ensures Spell(a + b) == Spell(a) + Spell(b)
  {
    ScalarPoints(a);
    ScalarPoints(b);
    EncodeAppend(CodePoints(a), CodePoints(b));
    assert CodePoints(a + b) == CodePoints(a) + CodePoints(b);
  }

  datatype PieceFault = EmptyPiece | IllFormed(fault: Utf8Fault) | OutsideAlphabet

  ghost predicate InAlphabet(c: nat) {
    exists b: byte :: CodePointOf(b) == c
  }

  lemma AlphabetOf(alphabet: map<nat, byte>, c: nat)
    requires IsInverse(alphabet)
    ensures c in alphabet <==> InAlphabet(c)
  {
  }

  lemma SpellNothing()
    ensures forall p :: p != [] ==> Spell(p) != []
  {
    forall p: bytes | p != [] ensures Spell(p) != [] {
      ScalarPoints(p);
      assert EncodeAll(CodePoints(p)) == Encode(CodePoints(p)[0]) + EncodeAll(CodePoints(p)[1..]);
    }
  }

  /** The piece a vocabulary string spells, or what is wrong with the string: no piece spells it, then. */
  method CompilePiece(text: bytes, alphabet: map<nat, byte>) returns (piece: bytes, fault: Option<PieceFault>)
    requires IsInverse(alphabet)
    ensures fault.None? ==> piece != [] && Spell(piece) == text
    ensures fault.Some? ==> forall p :: p != [] ==> Spell(p) != text
    ensures fault == Some(EmptyPiece) <==> text == []
    ensures (fault.Some? && fault.value.IllFormed?) <==> StrictDecode([], text).Err?
    ensures fault == Some(OutsideAlphabet) <==>
      text != [] && StrictDecode([], text).Ok? && exists c :: c in StrictDecode([], text).value && !InAlphabet(c)
  {
    hide CodePointOf, Encode, IsScalar;
    piece := [];
    if text == [] {
      SpellNothing();
      return [], Some(EmptyPiece);
    }
    var points, bad := DecodeStrict(text);
    if bad.Some? {
      forall p ensures Spell(p) != text { ScalarPoints(p); StrictMeans(text, CodePoints(p)); }
      return [], Some(IllFormed(bad.value));
    }
    StrictMeans(text, points);
    for i := 0 to |points|
      invariant CodePoints(piece) == points[..i] && forall k :: 0 <= k < i ==> InAlphabet(points[k])
    {
      AlphabetOf(alphabet, points[i]);
      if points[i] !in alphabet {
        forall p ensures Spell(p) != text {
          ScalarPoints(p); StrictMeans(text, CodePoints(p));
        }
        return [], Some(OutsideAlphabet);
      }
      piece := piece + [alphabet[points[i]]];
    }
    ScalarPoints(piece);
    assert points[..|points|] == points;
    return piece, None;
  }

  /** A vocabulary string stands for one piece only. */
  lemma SpellIsInjective(p: bytes, q: bytes)
    requires Spell(p) == Spell(q)
    ensures p == q
  {
    hide CodePointOf, Encode, StrictDecode;
    ScalarPoints(p); ScalarPoints(q);
    StrictMeans(Spell(p), CodePoints(p));
    StrictMeans(Spell(q), CodePoints(q));
    forall i | 0 <= i < |p| ensures p[i] == q[i] {
      assert CodePoints(p)[i] == CodePoints(q)[i];
      AlphabetIsInjective(p[i], q[i]);
    }
  }
}
