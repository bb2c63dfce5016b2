/** The object-store path of a block and its parser (components/types/src/slice.rs). */
module SliceKeyCodec {
  import opened Common
  import opened SliceTypes

  const U64: nat := 0x1_0000_0000_0000_0000

  /** A slice id is 64 bits wide, and so are block index and size. */
  predicate Fits(k: SliceKey) { k.id < U64 && k.index < U64 && k.size < U64 }

  // ---- printing -------------------------------------------------------------------

  const DIGITS: string := "0123456789ABCDEF"

  /** Upper-case hexadecimal without leading zeros. */
  function Hex(n: nat): (s: string)
    ensures |s| > 0
  {
    if n < 16 then [DIGITS[n]] else Hex(n / 16) + [DIGITS[n % 16]]
  }

  /** At least eight digits wide. */
  function Field(n: nat): string { Padded(Hex(n)) }

  function Padded(s: string): string
    decreases 8 - |s|
  {
    if |s| >= 8 then s else Padded("0" + s)
  }

  function LocalPath(k: SliceKey): string {
    Field(k.id / 1000 / 1000) + "_" + (Field(k.id / 1000) + "_" + (Field(k.id) + "_" + (Field(k.index) + "_" + Field(k.size))))
  }

  function ObjectPath(k: SliceKey): string { "chunks" + LocalPath(k) }

  // ---- parsing --------------------------------------------------------------------

  function DigitOf(c: char): Option<nat> {
    if '0' <= c <= '9' then Some((c - '0') as nat)
    else if 'A' <= c <= 'F' then Some((c - 'A') as nat + 10)
    else if 'a' <= c <= 'f' then Some((c - 'a') as nat + 10)
    else None
  }

  predicate AllDigits(s: string) { forall i :: 0 <= i < |s| ==> DigitOf(s[i]).Some? }

  function HexValue(s: string): nat
    requires AllDigits(s)
  {
    if s == "" then 0 else HexValue(s[..|s| - 1]) * 16 + DigitOf(s[|s| - 1]).value
  }

  /** Unsigned 64-bit parsing: an optional plus sign, then at least one digit of either case,
      and no overflow. */
  function ParseHex(s: string): Result<nat> {
    var digits := if s != "" && s[0] == '+' then s[1..] else s;
    if digits == "" || !AllDigits(digits) || HexValue(digits) >= U64 then Err(BadHexField) else Ok(HexValue(digits))
  }

  function Split(s: string): (fields: seq<string>)
    ensures |fields| > 0
  {
    if s == "" then [""]
    else if s[0] == '_' then [""] + Split(s[1..])
    else
      var rest := Split(s[1..]);
      [[s[0]] + rest[0]] + rest[1..]
  }

  /** The two derived fields are not parsed; printing the key again has to give them back. */
  function Parse(s: string): Result<SliceKey> {
    if !("chunks" <= s) then Err(InvalidSliceKey)
    else
      var fields := Split(s[6..]);
      if |fields| != 5 then Err(InvalidSliceKey)
      else
        var id, index, size := ParseHex(fields[2]), ParseHex(fields[3]), ParseHex(fields[4]);
        if id.Err? then Err(id.error)
        else if index.Err? then Err(index.error)
        else if size.Err? then Err(size.error)
        else
          var key := SliceKey(id.value, index.value, size.value);
          if ObjectPath(key) == s then Ok(key) else Err(InvalidSliceKey)
  }

  // ---- fields come back -------------------------------------------------------------

  lemma DigitsComeBack(d: nat)
    requires d < 16
    ensures DigitOf(DIGITS[d]) == Some(d) && DIGITS[d] != '_' && DIGITS[d] != '+'
  {
  }

  lemma {:induction false} HexComesBack(n: nat)
    ensures AllDigits(Hex(n)) && HexValue(Hex(n)) == n
  {
    DigitsComeBack(n % 16);
    if n < 16 {
      assert Hex(n)[..0] == "";
    } else {
      HexComesBack(n / 16);
      assert Hex(n)[..|Hex(n)| - 1] == Hex(n / 16);
    }
  }

  lemma {:induction false} LeadingZero(s: string)
    requires AllDigits(s)
    ensures AllDigits("0" + s) && HexValue("0" + s) == HexValue(s)
  {
    if s == "" {
      assert "0" + s == "0" && "0"[..0] == "" && HexValue("") == 0;
    } else {
      var n := |s| - 1;
      LeadingZero(s[..n]);
      assert ("0" + s)[..|s|] == "0" + s[..n];
    }
  }

  lemma {:induction false} PaddingKeeps(s: string)
    requires AllDigits(s) && s != ""
    ensures AllDigits(Padded(s)) && HexValue(Padded(s)) == HexValue(s) && Padded(s) != ""
    decreases 8 - |s|
  {
    if |s| < 8 {
      LeadingZero(s);
      PaddingKeeps("0" + s);
    }
  }

  lemma FieldComesBack(n: nat)
    ensures AllDigits(Field(n)) && '_' !in Field(n)
    ensures n < U64 ==> ParseHex(Field(n)) == Ok(n)
  {
    HexComesBack(n);
    PaddingKeeps(Hex(n));
    assert DigitOf(Field(n)[0]).Some?;
  }

  lemma {:induction false} HexForm(n: nat)
    ensures forall i :: 0 <= i < |Hex(n)| ==> Hex(n)[i] in DIGITS
    ensures |Hex(n)| > 1 ==> Hex(n)[0] != '0'
  {
    if n >= 16 {
      HexForm(n / 16);
      DigitsComeBack(n % 16);
      if n / 16 < 16 { DigitsComeBack(n / 16); }
    }
  }

  lemma {:induction false} PaddedForm(s: string)
    requires forall i :: 0 <= i < |s| ==> s[i] in DIGITS
    ensures |Padded(s)| == Max(8, |s|) && (|s| >= 8 ==> Padded(s) == s)
    ensures forall i :: 0 <= i < |Padded(s)| ==> Padded(s)[i] in DIGITS
    decreases 8 - |s|
  {
    if |s| < 8 { PaddedForm("0" + s); }
  }

  /** A field is upper-case, at least eight digits wide, and no wider than it has to be. */
  lemma FieldForm(n: nat)
    ensures |Field(n)| >= 8 && (|Field(n)| > 8 ==> Field(n)[0] != '0')
    ensures forall i :: 0 <= i < |Field(n)| ==> '0' <= Field(n)[i] <= '9' || 'A' <= Field(n)[i] <= 'F'
  {
    HexForm(n);
    PaddedForm(Hex(n));
    assert forall c :: c in DIGITS ==> '0' <= c <= '9' || 'A' <= c <= 'F';
  }

  lemma {:induction false} PaddedWithZeros(s: string)
    requires |s| <= 8
    ensures Padded(s) == seq(8 - |s|, _ => '0') + s
    decreases 8 - |s|
  {
    if |s| < 8 { PaddedWithZeros("0" + s); }
  }

  lemma ZeroField()
    ensures Field(0) == "00000000"
  {
    PaddedWithZeros("0");
  }

  lemma {:induction false} SplitLast(f: string)
    requires '_' !in f
    ensures Split(f) == [f]
  {
    if f != "" {
      SplitLast(f[1..]);
      assert [f[0]] + f[1..] == f;
    }
  }

  lemma {:induction false} SplitField(f: string, rest: string)
    requires '_' !in f
    ensures Split(f + "_" + rest) == [f] + Split(rest)
  {
    var s := f + "_" + rest;
    if f == "" {
      assert s[1..] == rest;
    } else {
      SplitField(f[1..], rest);
      assert s[1..] == f[1..] + "_" + rest;
      assert [f[0]] + f[1..] == f;
    }
  }

  // ---- round trips --------------------------------------------------------------------

  lemma SplitPath(k: SliceKey)
    ensures Split(LocalPath(k)) == [Field(k.id / 1000 / 1000), Field(k.id / 1000), Field(k.id), Field(k.index), Field(k.size)]
  {
    var a, b, c, d, e := Field(k.id / 1000 / 1000), Field(k.id / 1000), Field(k.id), Field(k.index), Field(k.size);
    FieldComesBack(k.id / 1000 / 1000);
    FieldComesBack(k.id / 1000);
    FieldComesBack(k.id);
    FieldComesBack(k.index);
    FieldComesBack(k.size);
    SplitField(a, b + "_" + (c + "_" + (d + "_" + e)));
    SplitField(b, c + "_" + (d + "_" + e));
    SplitField(c, d + "_" + e);
    SplitField(d, e);
    SplitLast(e);
  }

  /** An object path is the word chunks and five fields between underscores: the id in
      millions, in thousands and in full, the block's index and its size. */
  lemma PathForm(k: SliceKey)
    ensures "chunks" <= ObjectPath(k) && ObjectPath(k)[6..] == LocalPath(k)
    ensures Split(ObjectPath(k)[6..]) == [Field(k.id / 1000000), Field(k.id / 1000), Field(k.id), Field(k.index), Field(k.size)]
  {
    assert ObjectPath(k)[6..] == LocalPath(k);
    SplitPath(k);
    assert k.id / 1000 / 1000 == k.id / 1000000;
  }

  /** Every key comes back from its path. */
  lemma ParsePrinted(k: SliceKey)
    requires Fits(k)
    ensures Parse(ObjectPath(k)) == Ok(k)
  {
    assert ObjectPath(k)[6..] == LocalPath(k);
    SplitPath(k);
    FieldComesBack(k.id);
    FieldComesBack(k.index);
    FieldComesBack(k.size);
  }

  /** Only printed paths are accepted: a string parses exactly when it is some key's path. */
  lemma AcceptedIsPrinted(s: string)
    ensures Parse(s).Ok? ==> Fits(Parse(s).value) && ObjectPath(Parse(s).value) == s
    ensures Parse(s).Ok? <==> exists k :: Fits(k) && ObjectPath(k) == s
  {
    if Parse(s).Ok? {
      var k := Parse(s).value;
      assert Fits(k) && ObjectPath(k) == s;
    }
    if exists k :: Fits(k) && ObjectPath(k) == s {
      var k :| Fits(k) && ObjectPath(k) == s;
      ParsePrinted(k);
    }
  }

  /** Distinct blocks never share a path, on local disk or in the object store. */
  lemma PathsAreDistinct(k: SliceKey, m: SliceKey)
    requires Fits(k) && Fits(m) && k != m
    ensures LocalPath(k) != LocalPath(m) && ObjectPath(k) != ObjectPath(m)
  {
    ParsePrinted(k);
    ParsePrinted(m);
  }
}
