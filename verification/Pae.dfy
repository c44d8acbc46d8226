/**
The DSSE pre-authentication encoding, the byte string that gets signed:
`DSSEv1 <len(type)> <type> <len(body)> <body>`.  A signature speaks about one type
and one body because the encoding can be taken apart in only one way.
*/
module Pae {
  import opened Wrappers
  import opened Decimals

  const SPACE: byte := 32
  const MAGIC: Bytes := [68, 83, 83, 69, 118, 49, 32]  // "DSSEv1 "

  // ------------------------------------------------------------------- encoding

  function Pae(payloadType: Bytes, payload: Bytes): Bytes {
    MAGIC + Decimal(|payloadType|) + [SPACE] + payloadType + [SPACE] + Decimal(|payload|) + [SPACE] + payload
  }

  method DssePae(payloadType: Bytes, payload: Bytes) returns (pae: Bytes)
    ensures pae == [68, 83, 83, 69, 118, 49, 32]  // "DSSEv1 "
                   + Decimal(|payloadType|) + [32] + payloadType + [32] + Decimal(|payload|) + [32] + payload
    ensures Decode(pae) == Some((payloadType, payload))
  {
    pae := MAGIC;
    pae := pae + Decimal(|payloadType|);
    pae := pae + [SPACE];
    pae := pae + payloadType;
    pae := pae + [SPACE];
    pae := pae + Decimal(|payload|);
    pae := pae + [SPACE];
    pae := pae + payload;
    DecodeInvertsPae(payloadType, payload);
  }

  // ------------------------------------------------------------------- decoding

  function DigitRun(x: Bytes): (n: nat)
    ensures n <= |x| && (forall i :: 0 <= i < n ==> IsDigit(x[i])) && (n < |x| ==> !IsDigit(x[n]))
  {
    if x == [] || !IsDigit(x[0]) then 0 else 1 + DigitRun(x[1..])
  }

  /** A length and the space behind it: the number, and what follows. */
  function TakeLength(x: Bytes): Option<(nat, Bytes)> {
    var n := DigitRun(x);
    if n < |x| && x[n] == SPACE && IsDecimal(x[..n]) then Some((Value(x[..n]), x[n + 1..])) else None
  }

  /** A field behind its length, and the space that ends it: the field, and what follows. */
  function TakeField(x: Bytes): Option<(Bytes, Bytes)> {
    match TakeLength(x)
    case None => None
    case Some((n, r)) => if n < |r| && r[n] == SPACE then Some((r[..n], r[n + 1..])) else None
  }

  /** Read an encoding by its lengths alone. */
  function Decode(x: Bytes): Option<(Bytes, Bytes)> {
    if !(MAGIC <= x) then None
    else
      match TakeField(x[|MAGIC|..])
      case None => None
      case Some((t, tail)) =>
        match TakeLength(tail)
        case None => None
        case Some((m, body)) => if |body| == m then Some((t, body)) else None
  }

  lemma {:induction false} DigitRunIs(d: Bytes, rest: Bytes)
    requires (forall i :: 0 <= i < |d| ==> IsDigit(d[i])) && rest != [] && !IsDigit(rest[0])
    ensures DigitRun(d + rest) == |d|
  {
    if d == [] {
      assert d + rest == rest;
    } else {
      assert (d + rest)[1..] == d[1..] + rest;
      DigitRunIs(d[1..], rest);
    }
  }

  lemma TakeLengthOfPrinted(n: nat, rest: Bytes)
    ensures TakeLength(Decimal(n) + ([SPACE] + rest)) == Some((n, rest))
  {
    var d := Decimal(n);
    var x := d + ([SPACE] + rest);
    DecimalParses(n);
    DigitRunIs(d, [SPACE] + rest);
    assert x[..|d|] == d && x[|d| + 1..] == rest;
  }

  /** The converse: what `TakeLength` accepts is a printed length. */
  lemma TakenWasPrinted(x: Bytes)
    requires TakeLength(x).Some?
    ensures var (n, rest) := TakeLength(x).value; x == Decimal(n) + ([SPACE] + rest)
  {
    var k := DigitRun(x);
    DecimalIsUnique(x[..k]);
    SplitAt(x, k);
  }

  lemma SplitAt(x: Bytes, n: nat)
    requires n < |x|
    ensures x == x[..n] + ([x[n]] + x[n + 1..])
  {
  }

  lemma TakeFieldOfPrinted(t: Bytes, rest: Bytes)
    ensures TakeField(Decimal(|t|) + ([SPACE] + (t + ([SPACE] + rest)))) == Some((t, rest))
  {
    CutField(t, rest);
    TakeLengthOfPrinted(|t|, t + ([SPACE] + rest));
  }

  lemma CutField(t: Bytes, rest: Bytes)
    ensures var r := t + ([SPACE] + rest);
      |t| < |r| && r[..|t|] == t && r[|t|] == SPACE && r[|t| + 1..] == rest
  {
  }

  lemma FieldWasPrinted(x: Bytes)
    requires TakeField(x).Some?
    ensures var (t, rest) := TakeField(x).value; x == Decimal(|t|) + ([SPACE] + (t + ([SPACE] + rest)))
  {
    TakenWasPrinted(x);
    var (n, r) := TakeLength(x).value;
    SplitAt(r, n);
  }

  lemma Regroup(a: Bytes, b: Bytes, c: Bytes)
    ensures a + b + c == a + (b + c)
  {
  }

  lemma PaeNested(t: Bytes, b: Bytes)
    ensures Pae(t, b) == MAGIC + (Decimal(|t|) + ([SPACE] + (t + ([SPACE] + (Decimal(|b|) + ([SPACE] + b))))))
  {
    var n, m, sp := Decimal(|t|), Decimal(|b|), [SPACE];
    Regroup(MAGIC + n + sp + t + sp + m, sp, b);
    Regroup(MAGIC + n + sp + t + sp, m, sp + b);
    Regroup(MAGIC + n + sp + t, sp, m + (sp + b));
    Regroup(MAGIC + n + sp, t, sp + (m + (sp + b)));
    Regroup(MAGIC + n, sp, t + (sp + (m + (sp + b))));
    Regroup(MAGIC, n, sp + (t + (sp + (m + (sp + b)))));
  }

  /** The decoder recovers type and body whatever bytes they hold. */
  lemma DecodeInvertsPae(t: Bytes, b: Bytes)
    ensures Decode(Pae(t, b)) == Some((t, b))
  {
    PaeNested(t, b);
    var tail := Decimal(|b|) + ([SPACE] + b);
    assert Pae(t, b)[|MAGIC|..] == Decimal(|t|) + ([SPACE] + (t + ([SPACE] + tail)));
    TakeFieldOfPrinted(t, tail);
    TakeLengthOfPrinted(|b|, b);
  }

  /** Only encodings decode, so the decoder accepts exactly what is encoded. */
  lemma PaeInvertsDecode(x: Bytes)
    requires Decode(x).Some?
    ensures var (t, b) := Decode(x).value; Pae(t, b) == x
  {
    var rest := x[|MAGIC|..];
    assert x == MAGIC + rest;
    FieldWasPrinted(rest);
    var (t, tail) := TakeField(rest).value;
    TakenWasPrinted(tail);
    PaeNested(t, Decode(x).value.1);
  }

  lemma PaeIsInjective(t: Bytes, b: Bytes, t': Bytes, b': Bytes)
    requires Pae(t, b) == Pae(t', b')
    ensures t == t' && b == b'
  {
    DecodeInvertsPae(t, b);
    DecodeInvertsPae(t', b');
  }
}
