/** The font table loader of src/chip8/chip8_mods/memory.rs (`read_font`):
    the text of the font file is stripped of whitespace, split at commas into
    exactly 80 fields, and each field is read as a hexadecimal byte.  Reading
    the file itself is not part of this model; its contents are a parameter. */
module Font {
  import opened Primitives

  /** Sixteen glyphs of five rows each. */
  const FontSize := 80

  /** Rust's `char::is_whitespace`: the Unicode White_Space property. */
  predicate IsWhitespace(c: char) {
    || '\t' <= c <= '\r'
    || c == ' ' || c == '\U{0085}' || c == '\U{00A0}' || c == '\U{1680}'
    || '\U{2000}' <= c <= '\U{200A}'
    || c == '\U{2028}' || c == '\U{2029}' || c == '\U{202F}' || c == '\U{205F}' || c == '\U{3000}'
  }

  /** The text left by `retain(|c| !c.is_whitespace())`. */
  function Retained(s: string): (r: string)
    ensures |r| <= |s|
    ensures forall k :: 0 <= k < |r| ==> !IsWhitespace(r[k])
    ensures (forall k :: 0 <= k < |s| ==> !IsWhitespace(s[k])) ==> r == s
  {
    if s == [] then []
    else Retained(s[..|s| - 1]) + (if IsWhitespace(s[|s| - 1]) then [] else [s[|s| - 1]])
  }

  /** `retain` keeps every character that is not whitespace: each occurs as
      often in the result as in the text. */
  lemma {:induction false} RetainedKeepsText(s: string, c: char)
    requires !IsWhitespace(c)
    ensures multiset(Retained(s))[c] == multiset(s)[c]
  {
    if s != [] {
      var init, last := s[..|s| - 1], s[|s| - 1];
      assert s == init + [last];
      RetainedKeepsText(init, c);
    }
  }

  /** Number of commas in `s`. */
  function Commas(s: string): nat {
    if s == [] then 0 else (if s[0] == ',' then 1 else 0) + Commas(s[1..])
  }

  /** `s.split(',')`: the pieces between commas, in order, empty pieces
      included, so that n commas always give n + 1 fields. */
  function Split(s: string): (fields: seq<string>)
    ensures |fields| == Commas(s) + 1
    ensures forall k :: 0 <= k < |fields| ==> ',' !in fields[k]
  {
    if s == [] then [[]]
    else
      var rest := Split(s[1..]);
      if s[0] == ',' then [[]] + rest else [[s[0]] + rest[0]] + rest[1..]
  }

  /** The fields joined with commas between them: the inverse of Split. */
  function Join(fields: seq<string>): string {
    if fields == [] then []
    else if |fields| == 1 then fields[0]
    else fields[0] + "," + Join(fields[1..])
  }

  /** `field.trim_start_matches("0x")`: every leading "0x" is removed. */
  function TrimHexPrefix(s: string): (r: string)
    ensures |r| <= |s|
    ensures !(|r| >= 2 && r[0] == '0' && r[1] == 'x')
    ensures !(|s| >= 2 && s[0] == '0' && s[1] == 'x') ==> r == s
  {
    if |s| >= 2 && s[0] == '0' && s[1] == 'x' then TrimHexPrefix(s[2..]) else s
  }

  /** Trimming only removes characters from the front: what is left is a
      suffix of the field. */
  lemma {:induction false} TrimmedIsSuffix(s: string)
    ensures TrimHexPrefix(s) == s[|s| - |TrimHexPrefix(s)|..]
  {
    if |s| >= 2 && s[0] == '0' && s[1] == 'x' {
      TrimmedIsSuffix(s[2..]);
      assert s[2..][|s[2..]| - |TrimHexPrefix(s)|..] == s[|s| - |TrimHexPrefix(s)|..];
    }
  }

  /** What trimming cuts off is a run of whole "0x" pairs, "0x0x…0x". */
  lemma {:induction false} TrimmedPrefixPairs(s: string)
    ensures (|s| - |TrimHexPrefix(s)|) % 2 == 0
    ensures forall j :: 0 <= j < |s| - |TrimHexPrefix(s)| ==> s[j] == (if j % 2 == 0 then '0' else 'x')
  {
    if |s| >= 2 && s[0] == '0' && s[1] == 'x' {
      var cut := |s| - |TrimHexPrefix(s)|;
      TrimmedPrefixPairs(s[2..]);
      forall j | 2 <= j < cut ensures s[j] == (if j % 2 == 0 then '0' else 'x') {
        assert s[j] == s[2..][j - 2];
      }
    }
  }

  /** `char::to_digit(16)`: the value of a hex digit in either case. */
  function DigitValue(c: char): (r: Option<nat>)
    ensures r.Some? ==> r.value < 16
  {
    if '0' <= c <= '9' then Some(c as int - '0' as int)
    else if 'a' <= c <= 'f' then Some(c as int - 'a' as int + 10)
    else if 'A' <= c <= 'F' then Some(c as int - 'A' as int + 10)
    else None
  }

  /** The value of a run of hexadecimal digits read from left to right, or
      None when some character is not a digit. */
  function HexValue(s: string): (r: Option<nat>)
    ensures r.Some? <==> forall k :: 0 <= k < |s| ==> DigitValue(s[k]).Some?
  {
    if s == [] then Some(0)
    else match HexValue(s[..|s| - 1])
      case None => None
      case Some(high) =>
        match DigitValue(s[|s| - 1])
        case None => None
        case Some(d) => Some(high * 16 + d)
  }

  /** `u8::from_str_radix(s, 16)`, with every error collapsed to None: an
      optional leading `+`, then at least one hex digit, and a value that fits
      in a byte.  The library multiplies and adds with overflow checks digit
      by digit; since the partial value never decreases, that overflows
      exactly when the whole value exceeds 255. */
  function ParseU8(s: string): Option<u8> {
    var digits := if |s| > 0 && s[0] == '+' then s[1..] else s;
    if digits == [] then None
    else match HexValue(digits)
      case None => None
      case Some(v) => if v < 0x100 then Some(v) else None
  }

  /** One field of the font file read as a byte, the `0x` prefixes dropped. */
  function FieldByte(field: string): Option<u8> {
    ParseU8(TrimHexPrefix(field))
  }

  /** Every field reads as a byte. */
  predicate AllBytes(fields: seq<string>) {
    forall k | 0 <= k < |fields| :: FieldByte(fields[k]).Some?
  }

  /** The bytes of the fields, in field order. */
  function FieldBytes(fields: seq<string>): (bytes: seq<u8>)
    requires AllBytes(fields)
    ensures |bytes| == |fields|
    ensures forall k :: 0 <= k < |fields| ==> FieldByte(fields[k]) == Some(bytes[k])
  {
    seq(|fields|, k requires 0 <= k < |fields| => FieldByte(fields[k]).value)
  }

  /** What read_font does with the text of the font file: None when the text
      does not have exactly 80 fields, a panic (the `unwrap`) when it has but
      one of them is not a byte, and otherwise the 80 bytes in field order. */
  function ParseFont(contents: string): (r: Run<Option<seq<u8>>>)
    ensures r.Abort? ==> r.fault == FontByteInvalid
    ensures r.Value? && r.value.Some? ==> |r.value.value| == FontSize
  {
    var fields := Split(Retained(contents));
    if |fields| != FontSize then Value(None)
    else if !AllBytes(fields) then Abort(FontByteInvalid)
    else Value(Some(FieldBytes(fields)))
  }

  /** `contents.retain(|c| !c.is_whitespace())`, character by character. */
  method RetainNonWhitespace(contents: string) returns (kept: string)
    ensures kept == Retained(contents)
  {
    kept := [];
    for n := 0 to |contents|
      invariant kept == Retained(contents[..n])
    {
      assert contents[..n + 1][..n] == contents[..n];
      if !IsWhitespace(contents[n]) {
        kept := kept + [contents[n]];
      }
    }
    assert contents[..|contents|] == contents;
  }

  /** read_font after the file is read: `retain` drops the whitespace and the
      split fields are counted before they are parsed. */
  method ReadFont(contents: string) returns (r: Run<Option<seq<u8>>>)
    ensures r == ParseFont(contents)
  {
    var kept := RetainNonWhitespace(contents);
    var fields := Split(kept);
    if |fields| != FontSize {
      return Value(None);
    }
    var bytes := FillBytes(fields);
    if bytes.Abort? {
      return Abort(bytes.fault);
    }
    return Value(Some(bytes.value));
  }

  /** The loop of read_font that fills `result_array` field by field; the
      `unwrap` panics at the first field that is not a byte. */
  method FillBytes(fields: seq<string>) returns (r: Run<seq<u8>>)
    requires |fields| == FontSize
    ensures r == if AllBytes(fields) then Value(FieldBytes(fields)) else Abort(FontByteInvalid)
  {
    var result := new u8[FontSize](_ => 0);
    for k := 0 to FontSize
      invariant forall j :: 0 <= j < k ==> FieldByte(fields[j]) == Some(result[j])
    {
      var b := FieldByte(fields[k]);
      if b.None? {
        assert !AllBytes(fields);
        return Abort(FontByteInvalid);
      }
      result[k] := b.value;
    }
    assert AllBytes(fields);
    assert result[..] == FieldBytes(fields) by {
      forall j | 0 <= j < FontSize ensures result[j] == FieldBytes(fields)[j] {
        assert FieldByte(fields[j]) == Some(result[j]);
      }
    }
    return Value(result[..]);
  }

  // ---------------------------------------------------------------------
  // Properties of the loader

  /** Hex digit `d` as the font file writes it. */
  function HexChar(d: nat): char
    requires d < 16
  {
    "0123456789ABCDEF"[d]
  }

  /** A byte written as a `0x`-prefixed two-digit literal, as in the font file. */
  function HexLiteral(b: u8): string {
    ['0', 'x', HexChar(b / 16), HexChar(b % 16)]
  }

  /** The literals of a list of bytes, one field each. */
  function Literals(bytes: seq<u8>): (fields: seq<string>)
    ensures |fields| == |bytes|
  {
    if bytes == [] then [] else [HexLiteral(bytes[0])] + Literals(bytes[1..])
  }

  /** A font file listing the bytes as literals separated by ", ". */
  function Listing(bytes: seq<u8>): string {
    if bytes == [] then []
    else if |bytes| == 1 then HexLiteral(bytes[0])
    else HexLiteral(bytes[0]) + ", " + Listing(bytes[1..])
  }

  lemma DigitOfHexChar(d: nat)
    requires d < 16
    ensures DigitValue(HexChar(d)) == Some(d)
  {
    if d < 10 {
      assert HexChar(d) as int == '0' as int + d;
    } else {
      assert HexChar(d) as int == 'A' as int + d - 10;
    }
  }

  lemma TwoDigits(hi: char, lo: char, a: nat, b: nat)
    requires DigitValue(hi) == Some(a) && DigitValue(lo) == Some(b)
    ensures HexValue([hi, lo]) == Some(a * 16 + b)
  {
    assert [hi, lo][..1] == [hi];
    assert [hi][..0] == [];
    assert HexValue([]) == Some(0);
    assert HexValue([hi]) == Some(a);
  }

  /** `0x` followed by two hex digits reads as their value. */
  lemma TwoDigitField(hi: char, lo: char, a: nat, b: nat, v: nat)
    requires DigitValue(hi) == Some(a) && DigitValue(lo) == Some(b) && v == a * 16 + b
    ensures v < 0x100
    ensures FieldByte(['0', 'x', hi, lo]) == Some(v)
  {
    assert ['0', 'x', hi, lo][2..] == [hi, lo];
    assert TrimHexPrefix(['0', 'x', hi, lo]) == [hi, lo];
    TwoDigits(hi, lo, a, b);
  }

  /** Hex digits are not whitespace, so `retain` keeps such a literal whole. */
  lemma RetainedLiteral(hi: char, lo: char)
    requires DigitValue(hi).Some? && DigitValue(lo).Some?
    ensures Retained(['0', 'x', hi, lo]) == ['0', 'x', hi, lo]
  {
    var lit := ['0', 'x', hi, lo];
    forall k | 0 <= k < |lit| ensures !IsWhitespace(lit[k]) {
    }
  }

  /** Every literal of the font file's form reads back as the byte it was
      written from. */
  lemma LiteralReadsBack(b: u8)
    ensures FieldByte(HexLiteral(b)) == Some(b)
    ensures ',' !in HexLiteral(b)
    ensures Retained(HexLiteral(b)) == HexLiteral(b)
  {
    var h, l := b / 16, b % 16;
    var hi, lo := HexChar(h), HexChar(l);
    assert HexLiteral(b) == ['0', 'x', hi, lo];
    DigitOfHexChar(h);
    DigitOfHexChar(l);
    assert hi != ',' && lo != ',' by {
      assert DigitValue(',') == None;
    }
    assert h * 16 + l == b;
    TwoDigitField(hi, lo, h, l, b);
    RetainedLiteral(hi, lo);
  }

  lemma {:induction false} RetainedConcat(a: string, b: string)
    ensures Retained(a + b) == Retained(a) + Retained(b)
  {
    if b == [] {
      assert a + b == a;
    } else {
      var c := b[|b| - 1];
      var b' := b[..|b| - 1];
      assert (a + b)[..|a + b| - 1] == a + b';
      RetainedConcat(a, b');
    }
  }

  /** Retaining the non-whitespace of comma-joined whitespace-free fields
      changes nothing. */
  lemma {:induction false} RetainedJoin(fields: seq<string>)
    requires forall j :: 0 <= j < |fields| ==> Retained(fields[j]) == fields[j]
    ensures Retained(Join(fields)) == Join(fields)
  {
    if |fields| > 1 {
      RetainedJoin(fields[1..]);
      assert Retained(",") == "," by { assert ","[..0] == []; }
      RetainedConcat(fields[0], ",");
      RetainedConcat(fields[0] + ",", Join(fields[1..]));
    }
  }

  /** The font listing with its whitespace removed is the comma-joined literals. */
  lemma {:induction false} RetainedListing(bytes: seq<u8>)
    ensures Retained(Listing(bytes)) == Join(Literals(bytes))
  {
    if |bytes| == 1 {
      LiteralReadsBack(bytes[0]);
    } else if |bytes| > 1 {
      var lit, rest := HexLiteral(bytes[0]), Listing(bytes[1..]);
      LiteralReadsBack(bytes[0]);
      RetainedListing(bytes[1..]);
      assert Retained(", ") == "," by { assert ", "[..1] == "," && ","[..0] == []; }
      RetainedConcat(lit, ", ");
      RetainedConcat(lit + ", ", rest);
      assert Literals(bytes)[1..] == Literals(bytes[1..]);
    }
  }

  /** A field without commas is split off whole. */
  lemma {:induction false} SplitField(field: string, rest: string)
    requires ',' !in field
    ensures Split(field + "," + rest) == [field] + Split(rest)
    ensures Split(field) == [field]
  {
    if field != [] {
      assert (field + "," + rest)[1..] == field[1..] + "," + rest;
      SplitField(field[1..], rest);
      assert [field[0]] + field[1..] == field;
    } else {
      assert field + "," + rest == "," + rest;
    }
  }

  /** Splitting comma-joined fields gives the fields back. */
  lemma {:induction false} SplitJoin(fields: seq<string>)
    requires |fields| >= 1
    requires forall j :: 0 <= j < |fields| ==> ',' !in fields[j]
    ensures Split(Join(fields)) == fields
  {
    if |fields| == 1 {
      SplitField(fields[0], "");
    } else {
      SplitField(fields[0], Join(fields[1..]));
      SplitJoin(fields[1..]);
    }
  }

  /** The fields read_font sees in a font listing are the literals. */
  lemma ListingFields(bytes: seq<u8>)
    requires |bytes| >= 1
    ensures Split(Retained(Listing(bytes))) == Literals(bytes)
  {
    RetainedListing(bytes);
    forall j | 0 <= j < |bytes| ensures Literals(bytes)[j] == HexLiteral(bytes[j]) {
      LiteralAt(bytes, j);
    }
    forall j | 0 <= j < |bytes| ensures ',' !in Literals(bytes)[j] {
      LiteralReadsBack(bytes[j]);
    }
    SplitJoin(Literals(bytes));
  }

  lemma {:induction false} LiteralAt(bytes: seq<u8>, j: nat)
    requires j < |bytes|
    ensures Literals(bytes)[j] == HexLiteral(bytes[j])
  {
    if j > 0 {
      LiteralAt(bytes[1..], j - 1);
    }
  }

  /** A font file that lists exactly 80 byte literals loads those bytes, in
      order. */
  lemma FontListingLoads(bytes: seq<u8>)
    requires |bytes| == FontSize
    ensures ParseFont(Listing(bytes)) == Value(Some(bytes))
  {
    ListingFields(bytes);
    var fields := Literals(bytes);
    forall j | 0 <= j < |bytes| ensures FieldByte(fields[j]) == Some(bytes[j]) {
      LiteralAt(bytes, j);
      LiteralReadsBack(bytes[j]);
    }
    assert AllBytes(fields);
    assert FieldBytes(fields) == bytes;
  }

  /** A font file listing any other number of literals, 79 or 81 say, gives
      None; so does an empty file, which splits into one empty field. */
  lemma FontListingWrongCount(bytes: seq<u8>)
    requires |bytes| != FontSize
    ensures ParseFont(Listing(bytes)) == Value(None)
  {
    if bytes == [] {
      assert Split(Retained(Listing(bytes))) == [[]];
    } else {
      ListingFields(bytes);
    }
  }

  /** With 80 comma-separated fields, one field that is not a byte makes
      read_font panic, wherever it stands. */
  lemma BadFieldPanics(fields: seq<string>, k: nat)
    requires |fields| == FontSize && k < FontSize
    requires forall j :: 0 <= j < |fields| ==> ',' !in fields[j] && Retained(fields[j]) == fields[j]
    requires FieldByte(fields[k]) == None
    ensures ParseFont(Join(fields)) == Abort(FontByteInvalid)
  {
    RetainedJoin(fields);
    SplitJoin(fields);
  }

  /** A field with no digits once its prefixes are dropped fails: "",
      "0x", "0x0x", and a bare sign such as "0x+". */
  lemma EmptyFieldRejected(field: string)
    requires TrimHexPrefix(field) == [] || TrimHexPrefix(field) == "+"
    ensures FieldByte(field) == None
  {
    if TrimHexPrefix(field) == "+" {
      assert TrimHexPrefix(field)[1..] == [];
    }
  }

  /** A field with a character that is not a hex digit, once its prefixes
      are dropped, fails; only a single leading `+` is let through. */
  lemma NonHexFieldRejected(field: string, j: nat)
    requires j < |TrimHexPrefix(field)| && DigitValue(TrimHexPrefix(field)[j]).None?
    requires j > 0 || TrimHexPrefix(field)[j] != '+'
    ensures FieldByte(field) == None
  {
    var t := TrimHexPrefix(field);
    if t[0] == '+' {
      assert t[1..][j - 1] == t[j];
    }
  }

  /** A run of hex digits with a non-zero leading digit has at least the
      value its length promises: 1 for one digit, 16 for two, 256 for three
      or more. */
  lemma {:induction false} LeadingDigitValue(ds: string)
    requires |ds| >= 1 && forall k :: 0 <= k < |ds| ==> DigitValue(ds[k]).Some?
    requires DigitValue(ds[0]) != Some(0)
    ensures HexValue(ds).Some? && HexValue(ds).value >= 1
    ensures |ds| >= 2 ==> HexValue(ds).value >= 16
    ensures |ds| >= 3 ==> HexValue(ds).value >= 256
  {
    var init := ds[..|ds| - 1];
    if |ds| == 1 {
      assert init == [];
    } else {
      assert init[0] == ds[0];
      LeadingDigitValue(init);
    }
  }

  /** A field of three or more hex digits after "0x", the first of them not
      0, is above 0xFF and fails. */
  lemma WideFieldRejected(ds: string)
    requires |ds| >= 3 && forall k :: 0 <= k < |ds| ==> DigitValue(ds[k]).Some?
    requires DigitValue(ds[0]) != Some(0)
    ensures FieldByte("0x" + ds) == None
  {
    assert ("0x" + ds)[2..] == ds;
    assert ds[0] != '0' && ds[0] != '+';
    LeadingDigitValue(ds);
  }
}
