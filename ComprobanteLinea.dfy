/** The field mapper for the text of an AFIP "comprobante en línea" receipt
    (`complinea` and its helper `to_float` in readcomlin.py).

    The detection pattern captures 14 groups:
      1      the digits after "Comp. Nro:",
      2      a dd/dd/dddd date (the CAE expiry date),
      3      a 54-digit block (the barcode digits),
      4..14  eleven amounts written digits, comma, digits.
    The regular-expression engine is not modelled: a match is a `Groups` value, and
    `MatchGroups` holds exactly the values the pattern can produce. */
module ComprobanteLinea {
  import opened Decimals
  import opened Records

  /** Index of the first `c` in `s`, or |s| when there is none. */
  function IndexOf(s: string, c: char): (k: nat)
    ensures k <= |s|
    ensures k < |s| ==> s[k] == c
    ensures forall i | 0 <= i < k :: s[i] != c
  {
    if |s| == 0 then 0
    else if s[0] == c then 0
    else 1 + IndexOf(s[1..], c)
  }

  /** The shape `\d+<sep>\d+`: digits, one separator, digits. */
  predicate IsNumeral(s: string, sep: char) {
    var k := IndexOf(s, sep);
    0 < k < |s| - 1 && AllDigits(s[..k]) && AllDigits(s[k + 1..])
  }

  /** The number written by a numeral: integer part plus fraction / 10^(fraction digits). */
  function NumeralValue(s: string, sep: char): Decimal
    requires IsNumeral(s, sep)
  {
    var k := IndexOf(s, sep);
    Decimal(DigitsValue(s[..k]) * Pow10(|s| - k - 1) + DigitsValue(s[k + 1..]), |s| - k - 1)
  }

  /** `str.replace(',', '.')`: every comma becomes a dot, nothing else changes. */
  function ReplaceComma(s: string): string {
    seq(|s|, i requires 0 <= i < |s| => if s[i] == ',' then '.' else s[i])
  }

  /** The replacement keeps the length and every character other than a comma, leaves no
      comma, and changes nothing when applied again. */
  lemma ReplaceCommaKeepsOthers(s: string)
    ensures |ReplaceComma(s)| == |s|
    ensures forall i | 0 <= i < |s| :: s[i] != ',' ==> ReplaceComma(s)[i] == s[i]
    ensures forall i | 0 <= i < |s| :: s[i] == ',' ==> ReplaceComma(s)[i] == '.'
    ensures ',' !in ReplaceComma(s)
    ensures ReplaceComma(ReplaceComma(s)) == ReplaceComma(s)
  {
  }

  /** On an amount the replacement puts exactly one dot where the comma was and leaves
      no comma, so the result is a dot-decimal numeral with the same digits. */
  lemma ReplaceCommaOnNumeral(s: string)
    requires IsNumeral(s, ',')
    ensures var k := IndexOf(s, ','); var r := ReplaceComma(s);
      && (forall i | 0 <= i < |r| :: r[i] != ',')
      && (forall i | 0 <= i < |r| :: r[i] == '.' <==> i == k)
      && IndexOf(r, '.') == k
      && r[..k] == s[..k] && r[k + 1..] == s[k + 1..]
      && IsNumeral(r, '.')
      && NumeralValue(r, '.') == NumeralValue(s, ',')
  {
    var k := IndexOf(s, ',');
    var r := ReplaceComma(s);
    forall i | 0 <= i < k ensures r[i] == s[i] && IsDigit(s[i]) {
      assert s[..k][i] == s[i];
    }
    forall i | k < i < |s| ensures r[i] == s[i] && IsDigit(s[i]) {
      assert s[k + 1..][i - k - 1] == s[i];
    }
    assert r[k] == '.';
    assert r[..k] == s[..k];
    assert r[k + 1..] == s[k + 1..];
  }

  /** `float()` of a dot-decimal numeral, read exactly. */
  function ParseDecimal(t: string): (r: Decimal)
    requires IsNumeral(t, '.')
    ensures Canonical(r) && SameValue(r, NumeralValue(t, '.'))
  {
    var k := IndexOf(t, '.');
    DigitsValueAppend(t[..k], t[k + 1..]);
    Normalize(Decimal(DigitsValue(t[..k] + t[k + 1..]), |t| - k - 1))
  }

  /** `to_float`: a comma-decimal amount as the exact number it writes. The record
      keeps the dot-decimal text that `float()` receives (see `Complinea`); this is
      the number that text denotes. */
  function ToFloat(s: string): (r: Decimal)
    requires IsNumeral(s, ',')
    ensures Canonical(r) && SameValue(r, NumeralValue(s, ','))
  {
    ReplaceCommaOnNumeral(s);
    ParseDecimal(ReplaceComma(s))
  }

  /** `to_float` turns "27,00" into "27.00" before conversion. */
  lemma ReplaceCommaExample()
    ensures ReplaceComma("27,00") == "27.00"
  {
  }

  /** "27,00" is the number 27. */
  lemma ToFloatExample27()
    ensures ToFloat("27,00") == Decimal(27, 0)
  {
    assert IndexOf("27,00", ',') == 2;
    assert "27,00"[..2] == "27" && "27,00"[3..] == "00";
    assert "27"[..1] == "2" && "00"[..1] == "0";
    assert NumeralValue("27,00", ',') == Decimal(2700, 2);
    var r := ToFloat("27,00");
    assert r.units * 100 == 2700 * Pow10(r.scale);
    CancelFactor(r.units, 27 * Pow10(r.scale), 100);
    CanonicalUnique(r, Decimal(27, 0));
  }

  /** "100,50" is the number 100.5. */
  lemma ToFloatExample100()
    ensures ToFloat("100,50") == Decimal(1005, 1)
  {
    assert IndexOf("100,50", ',') == 3;
    assert "100,50"[..3] == "100" && "100,50"[4..] == "50";
    assert "100"[..2] == "10" && "10"[..1] == "1" && "50"[..1] == "5";
    assert NumeralValue("100,50", ',') == Decimal(10050, 2);
    var r := ToFloat("100,50");
    assert r.units * 100 == 10050 * Pow10(r.scale);
    CancelFactor(r.units * 10, 1005 * Pow10(r.scale), 10);
    CanonicalUnique(r, Decimal(1005, 1));
  }

  /** A thousands separator is not part of the amount shape: "1.234,56" never reaches
      `to_float`. */
  lemma ThousandsSeparatorIsNotAnAmount()
    ensures !IsNumeral("1.234,56", ',')
  {
    assert IndexOf("1.234,56", ',') == 5;
    assert !IsDigit("1.234"[1]);
  }

  /** The captured groups of one match; `Group(i)` is `match.group(i)`. */
  datatype Groups = Groups(caps: seq<string>) {
    function Group(i: nat): string
      requires 1 <= i <= |caps|
    {
      caps[i - 1]
    }
  }

  /** `[0-9]{2}/[0-9]{2}/[0-9]{4}` */
  predicate IsDate(s: string) {
    |s| == 10 && s[2] == '/' && s[5] == '/'
    && AllDigits(s[..2]) && AllDigits(s[3..5]) && AllDigits(s[6..])
  }

  /** What the detection pattern guarantees about its 14 groups. */
  predicate WellFormed(m: Groups) {
    && |m.caps| == 14
    && |m.Group(1)| > 0 && AllDigits(m.Group(1))
    && IsDate(m.Group(2))
    && |m.Group(3)| == 54 && AllDigits(m.Group(3))
    && AllAmounts(m.caps[3..])
  }

  /** Every string of the list is an amount. */
  predicate AllAmounts(gs: seq<string>) {
    |gs| == 0 || (IsNumeral(gs[0], ',') && AllAmounts(gs[1..]))
  }

  /** Groups 4 to 14 are amounts. */
  lemma {:induction false} AmountGroups(m: MatchGroups, i: nat)
    requires 4 <= i <= 14
    ensures IsNumeral(m.Group(i), ',')
  {
    AllAmountsAt(m.caps[3..], i - 4);
  }

  lemma {:induction false} AllAmountsOf(gs: seq<string>)
    requires forall j | 0 <= j < |gs| :: IsNumeral(gs[j], ',')
    ensures AllAmounts(gs)
  {
    if |gs| > 0 {
      AllAmountsOf(gs[1..]);
    }
  }

  lemma {:induction false} AllAmountsAt(gs: seq<string>, j: nat)
    requires AllAmounts(gs) && j < |gs|
    ensures IsNumeral(gs[j], ',')
  {
    if j > 0 {
      AllAmountsAt(gs[1..], j - 1);
    }
  }

  type MatchGroups = m: Groups | WellFormed(m)
    witness ZeroGroups()

  /** A match of all zeros: "0", "00/00/0000", 54 zeros and eleven times "0,0". */
  function ZeroGroups(): (m: Groups)
    ensures WellFormed(m)
  {
    var amounts := seq(11, _ => "0,0");
    assert IndexOf("0,0", ',') == 1;
    AllAmountsOf(amounts);
    var m := Groups(["0", "00/00/0000", seq(54, _ => '0')] + amounts);
    assert m.caps[3..] == amounts;
    m
  }

  /** Python's `s[n:]`: empty when `s` is shorter than `n`. */
  function DropPrefix(s: string, n: nat): (r: string)
    ensures |r| == if |s| <= n then 0 else |s| - n
    ensures n <= |s| ==> s == s[..n] + r
  {
    if n <= |s| then s[n..] else ""
  }

  /** The 18 keys of the record. */
  const CuitEmisor := "CUIT_Emisor"
  const CodigoComprobante := "Codigo_Comprobante"
  const PuntoVenta := "Punto_Venta"
  const NumeroComprobante := "Numero_Comprobante"
  const CaeVto := "CAE_vto"
  const CaeNro := "CAE_nro"
  const Cae := "CAE"
  const FechaEmision := "Fecha_Emision"
  const NoGravado := "No_Gravado"
  const Gravado := "Gravado"
  const Iva27 := "IVA_27"
  const Iva21 := "IVA_21"
  const Iva105 := "IVA_10.5"
  const Iva5 := "IVA_5"
  const Iva25 := "IVA_2.5"
  const OtrosTributos := "Otros_Tributos"
  const Total := "Total"
  const Iva0 := "IVA_0"

  /** The first eight keys, in the order the source writes them: the identifiers. */
  const IdentifierNames: seq<string> :=
    [CuitEmisor, CodigoComprobante, PuntoVenta, NumeroComprobante, CaeVto, CaeNro, Cae, FechaEmision]

  /** The last ten keys, in the order the source writes them: the amounts of groups 5 to 14. */
  const AmountNames: seq<string> :=
    [NoGravado, Gravado, Iva27, Iva21, Iva105, Iva5, Iva25, OtrosTributos, Total, Iva0]

  const FieldNames: seq<string> := IdentifierNames + AmountNames

  /** The fixed-width slices of the 54-digit block, in block order:
      [0:14] CAE_nro, [14:25] CUIT_Emisor, [25:27] Codigo_Comprobante, [27:31] Punto_Venta,
      [31:45] CAE, [45:53] Fecha_Emision. */
  function SplitBlock(b: string): (parts: seq<string>)
    requires |b| == 54
  {
    [b[0..14], b[14..25], b[25..27], b[27..31], b[31..45], b[45..53]]
  }

  /** The slices have widths 14, 11, 2, 4, 14 and 8, are all digits, follow each other
      without gap or overlap from index 0, and leave out only index 53. */
  lemma SplitBlockTiles(b: string)
    requires |b| == 54 && AllDigits(b)
    ensures var p := SplitBlock(b);
      && |p| == 6
      && |p[0]| == 14 && |p[1]| == 11 && |p[2]| == 2 && |p[3]| == 4 && |p[4]| == 14 && |p[5]| == 8
      && (forall i | 0 <= i < 6 :: AllDigits(p[i]))
      && p[0] + p[1] + p[2] + p[3] + p[4] + p[5] == b[..53]
  {
  }

  /** Only the first 53 digits of the block decide its slices. */
  lemma SplitBlockIgnoresLastDigit(b: string, b': string)
    requires |b| == 54 && |b'| == 54 && b[..53] == b'[..53]
    ensures SplitBlock(b) == SplitBlock(b')
  {
    assert b[0..14] == b[..53][0..14] && b'[0..14] == b'[..53][0..14];
    assert b[14..25] == b[..53][14..25] && b'[14..25] == b'[..53][14..25];
    assert b[25..27] == b[..53][25..27] && b'[25..27] == b'[..53][25..27];
    assert b[27..31] == b[..53][27..31] && b'[27..31] == b'[..53][27..31];
    assert b[31..45] == b[..53][31..45] && b'[31..45] == b'[..53][31..45];
    assert b[45..53] == b[..53][45..53] && b'[45..53] == b'[..53][45..53];
  }

  /** The group count and block width the slicing in `complinea` relies on; every match
      has them. */
  predicate Shaped(m: Groups) {
    |m.caps| == 14 && |m.Group(3)| == 54
  }

  /** The values of the first eight keys, in the order of `IdentifierNames`. */
  function Identifiers(m: Groups): seq<Value>
    requires Shaped(m)
  {
    var ids := SplitBlock(m.Group(3));
    [Text(ids[1]), Text(ids[2]), Text(ids[3]), Text(DropPrefix(m.Group(1), 4)),
     Text(m.Group(2)), Text(ids[0]), Text(ids[4]), Text(ids[5])]
  }

  /** The values of the last ten keys: groups 5 to 14, comma replaced by a dot. */
  function Amounts(m: Groups): seq<Value>
    requires Shaped(m)
  {
    seq(10, j requires 0 <= j < 10 => Number(ReplaceComma(m.Group(j + 5))))
  }

  /** `complinea`: the dictionary display pairing the 18 keys with their values. */
  function Complinea(m: Groups): Record
    requires Shaped(m)
  {
    DictOf(Zip(FieldNames, Identifiers(m) + Amounts(m)))
  }

  lemma FieldNamesDistinct()
    ensures |FieldNames| == 18 && Distinct(FieldNames)
  {
  }

  /** Key `i` is present and holds value `i`. */
  lemma ItemAt(m: Groups, i: nat)
    requires Shaped(m) && i < 18
    ensures FieldNames[i] in Complinea(m)
    ensures Complinea(m)[FieldNames[i]] == (Identifiers(m) + Amounts(m))[i]
  {
    FieldNamesDistinct();
    DictOfAt(Zip(FieldNames, Identifiers(m) + Amounts(m)), i);
  }

  /** Amount key `j` is present and holds amount `j`. */
  lemma AmountAt(m: Groups, j: nat)
    requires Shaped(m) && j < 10
    ensures AmountNames[j] in Complinea(m) && Complinea(m)[AmountNames[j]] == Amounts(m)[j]
  {
    ItemAt(m, j + 8);
    assert FieldNames[j + 8] == AmountNames[j];
    assert (Identifiers(m) + Amounts(m))[j + 8] == Amounts(m)[j];
  }

  /** Whatever the groups hold, the record has exactly the 18 keys. */
  lemma RecordHasEighteenKeys(m: Groups)
    requires Shaped(m)
    ensures Complinea(m).Keys == set k | k in FieldNames
    ensures |Complinea(m)| == 18
  {
    FieldNamesDistinct();
    DictOfSize(Zip(FieldNames, Identifiers(m) + Amounts(m)));
  }

  /** The six identifiers taken from group 3 are its slices, in block order. */
  lemma IdentifiersFromGroup3(m: Groups)
    requires Shaped(m)
    ensures var r := Complinea(m); var p := SplitBlock(m.Group(3));
      && r[CaeNro] == Text(p[0]) && r[CuitEmisor] == Text(p[1])
      && r[CodigoComprobante] == Text(p[2]) && r[PuntoVenta] == Text(p[3])
      && r[Cae] == Text(p[4]) && r[FechaEmision] == Text(p[5])
  {
    ItemAt(m, 0); ItemAt(m, 1); ItemAt(m, 2); ItemAt(m, 5); ItemAt(m, 6); ItemAt(m, 7);
  }

  /** Group 1 loses its first four characters (nothing is left of at most four);
      group 2 is kept as it is. */
  lemma NumeroAndExpiryFromGroups1And2(m: Groups)
    requires Shaped(m)
    ensures var r := Complinea(m); var g1 := m.Group(1);
      && r[NumeroComprobante].Text?
      && (|g1| <= 4 ==> r[NumeroComprobante].text == "")
      && (|g1| > 4 ==> g1 == g1[..4] + r[NumeroComprobante].text)
      && r[CaeVto] == Text(m.Group(2))
  {
    ItemAt(m, 3); ItemAt(m, 4);
  }

  /** On a match, `Numero_Comprobante` is all digits and `CAE_vto` a dd/dd/dddd date. */
  lemma NumeroAndExpiryShapes(m: MatchGroups)
    ensures var r := Complinea(m);
      && NumeroComprobante in r && r[NumeroComprobante].Text? && AllDigits(r[NumeroComprobante].text)
      && CaeVto in r && r[CaeVto].Text? && IsDate(r[CaeVto].text)
  {
    NumeroAndExpiryFromGroups1And2(m);
    var n := DropPrefix(m.Group(1), 4);
    assert forall i | 0 <= i < |n| :: n[i] == m.Group(1)[i + 4];
  }

  /** Groups 5 to 14 give, in order, the ten amount keys, comma replaced by a dot. */
  lemma AmountsFromGroups5To14(m: Groups)
    requires Shaped(m)
    ensures forall j | 0 <= j < 10 ::
      AmountNames[j] in Complinea(m) && Complinea(m)[AmountNames[j]] == Number(ReplaceComma(m.Group(j + 5)))
  {
    forall j | 0 <= j < 10
      ensures AmountNames[j] in Complinea(m) && Complinea(m)[AmountNames[j]] == Number(ReplaceComma(m.Group(j + 5)))
    {
      AmountAt(m, j);
    }
  }

  /** "Otros_Tributos" comes from group 12, not from group 4. */
  lemma OtrosTributosFromGroup12(m: Groups)
    requires Shaped(m)
    ensures OtrosTributos in Complinea(m) && Complinea(m)[OtrosTributos] == Number(ReplaceComma(m.Group(12)))
  {
    AmountAt(m, 7);
  }

  /** The number an amount field denotes: `float()` of its text. */
  function AmountValue(v: Value): (d: Decimal)
    requires v.Number? && IsNumeral(v.literal, '.')
    ensures Canonical(d) && SameValue(d, NumeralValue(v.literal, '.'))
  {
    ParseDecimal(v.literal)
  }

  /** An amount field whose group is a comma-decimal numeral holds a dot-decimal numeral
      and denotes the number the group writes, `to_float` of the group. */
  lemma AmountValuesAreToFloat(m: Groups, i: nat)
    requires Shaped(m) && 5 <= i <= 14 && IsNumeral(m.Group(i), ',')
    ensures AmountNames[i - 5] in Complinea(m)
    ensures var v := Complinea(m)[AmountNames[i - 5]];
      && v.Number? && IsNumeral(v.literal, '.')
      && AmountValue(v) == ToFloat(m.Group(i))
  {
    AmountAt(m, i - 5);
    ReplaceCommaOnNumeral(m.Group(i));
  }

  /** On a match every amount group is such a numeral. */
  lemma MatchAmountValuesAreToFloat(m: MatchGroups, i: nat)
    requires 5 <= i <= 14
    ensures IsNumeral(m.Group(i), ',') && AmountNames[i - 5] in Complinea(m)
    ensures var v := Complinea(m)[AmountNames[i - 5]];
      && v.Number? && IsNumeral(v.literal, '.')
      && AmountValue(v) == ToFloat(m.Group(i))
  {
    AmountGroups(m, i);
    AmountValuesAreToFloat(m, i);
  }

  /** Group 4 and the last digit of group 3 are never read. */
  lemma IgnoresGroup4AndLastDigit(m: Groups, m': Groups)
    requires Shaped(m) && Shaped(m')
    requires forall i | 1 <= i <= 14 && i != 3 && i != 4 :: m.Group(i) == m'.Group(i)
    requires m.Group(3)[..53] == m'.Group(3)[..53]
    ensures Complinea(m) == Complinea(m')
  {
    SplitBlockIgnoresLastDigit(m.Group(3), m'.Group(3));
    assert Identifiers(m) == Identifiers(m');
    assert Amounts(m) == Amounts(m');
  }

  /** Conversely, the record of a match determines the first 53 digits of group 3. */
  lemma RecordDeterminesBlockPrefix(m: MatchGroups, m': MatchGroups)
    requires Complinea(m) == Complinea(m')
    ensures m.Group(3)[..53] == m'.Group(3)[..53]
  {
    IdentifiersFromGroup3(m);
    IdentifiersFromGroup3(m');
    SplitBlockTiles(m.Group(3));
    SplitBlockTiles(m'.Group(3));
  }
}
