/**
 * The argument checks of the half-block image previewer (TermPreview.py): the background
 * colour parser `parse_color` (a colour name, `#RGB`, `#RRGGBB`, `r,g,b` or `terminal`)
 * and the crop rectangle `main` reads from `-f x,y` and `-t x,y` and checks against the
 * image size before drawing anything.
 *
 * Python's int() is modelled for the strings these checks give it: surrounding white
 * space, an optional sign, then digits of the base.
 */
module TermPreview {
  import opened Decimal
  import opened PyText

  // ---------------------------------------------------------------------------
  // int(s, base)

  predicate IsHexDigit(c: char) {
    IsDigit(c) || 'a' <= c <= 'f' || 'A' <= c <= 'F'
  }

  /** Whether c is a digit of base 10 or base 16 (in either case). */
  predicate IsDigitOf(c: char, base: int) {
    if base == 16 then IsHexDigit(c) else IsDigit(c)
  }

  function HexDigitValue(c: char): (v: nat)
    requires IsHexDigit(c)
    ensures v < 16 && (IsDigit(c) <==> v < 10)
  {
    if IsDigit(c) then c as int - '0' as int
    else if 'a' <= c <= 'f' then c as int - 'a' as int + 10
    else c as int - 'A' as int + 10
  }

  /** A string made only of digits of the base. */
  predicate DigitsOf(ds: string, base: int) {
    forall i :: 0 <= i < |ds| ==> IsDigitOf(ds[i], base)
  }

  /** The value of a string of digits of the base, most significant first. */
  function ValueOf(ds: string, base: int): nat
    requires base == 10 || base == 16
    requires DigitsOf(ds, base)
  {
    if ds == [] then 0
    else
      assert IsDigitOf(ds[|ds| - 1], base);
      var d := HexDigitValue(ds[|ds| - 1]);
      if base == 16 then 16 * ValueOf(ds[..|ds| - 1], base) + d else 10 * ValueOf(ds[..|ds| - 1], base) + d
  }

  /** In base 10 the value is the decimal value of the digits. */
  lemma {:induction false} ValueOfDecimal(ds: string)
    requires forall i :: 0 <= i < |ds| ==> IsDigit(ds[i])
    ensures ValueOf(ds, 10) == DigitsValue(ds)
  {
    if ds != [] {
      ValueOfDecimal(ds[..|ds| - 1]);
    }
  }

  /** An optional sign, then one or more digits of the base. */
  function ReadSigned(s: string, base: int): (r: Result<int>)
    requires base == 10 || base == 16
    ensures r.Ok? ==> s != [] && (r.value < 0 ==> s[0] == '-')
  {
    var body := if s != [] && (s[0] == '+' || s[0] == '-') then s[1..] else s;
    if body != [] && DigitsOf(body, base) then
      var v: int := ValueOf(body, base);
      Ok(if s[0] == '-' then -v else v)
    else Error
  }

  /** int(t, base) for base 10 or 16: white space around, an optional sign, then one or
      more digits of the base; anything else raises ValueError. */
  function PyInt(t: string, base: int): (r: Result<int>)
    requires base == 10 || base == 16
  {
    ReadSigned(Strip(t), base)
  }

  lemma ValueOf1(c: char, base: int)
    requires (base == 10 || base == 16) && IsDigitOf(c, base)
    ensures ValueOf([c], base) == HexDigitValue(c)
  {
    assert [c][..0] == [];
  }

  /** Two digits are worth base times the first plus the second. */
  lemma ValueOf2(t: string, base: int)
    requires (base == 10 || base == 16) && |t| == 2 && IsDigitOf(t[0], base) && IsDigitOf(t[1], base)
    ensures ValueOf(t, base) == base * HexDigitValue(t[0]) + HexDigitValue(t[1])
  {
    assert t[..1] == [t[0]];
    ValueOf1(t[0], base);
  }

  /** Decimal digits, with a minus sign or not, read as their value. */
  lemma ReadSignedDigits(ds: string)
    requires ds != [] && forall i :: 0 <= i < |ds| ==> IsDigit(ds[i])
    ensures ReadSigned(ds, 10) == Ok(DigitsValue(ds))
    ensures ReadSigned("-" + ds, 10) == Ok(-(DigitsValue(ds) as int))
  {
    ValueOfDecimal(ds);
    assert DigitsOf(ds, 10);
    assert ("-" + ds)[0] == '-' && ("-" + ds)[1..] == ds;
    assert ds[0] == ds[0] && !(ds[0] == '+' || ds[0] == '-');
  }

  /** int() of decimal digits, with a minus sign or not, is their value. */
  lemma PyIntDigits(ds: string)
    requires ds != [] && forall i :: 0 <= i < |ds| ==> IsDigit(ds[i])
    ensures PyInt(ds, 10) == Ok(DigitsValue(ds))
    ensures PyInt("-" + ds, 10) == Ok(-(DigitsValue(ds) as int))
  {
    ReadSignedDigits(ds);
    CleanEnds(ds);
    CleanEnds("-" + ds);
  }

  /** Digits, or a minus sign and digits, have no white space to strip. */
  lemma CleanEnds(t: string)
    requires |t| > 0 && (IsDigit(t[0]) || t[0] == '-') && IsDigit(t[|t| - 1])
    ensures Strip(t) == t
  {
    StripClean(t);
  }

  /** A number written in decimal reads back as itself. */
  lemma PyIntShow(n: int)
    ensures PyInt(ShowInt(n), 10) == Ok(n)
  {
    var m: nat := if n < 0 then -n else n;
    PyIntDigits(ShowNat(m));
    ShowNatValue(m);
  }

  /** int(c * 2, 16): a hex digit doubled is 17 times its value; anything else raises. */
  lemma DoubledDigit(c: char)
    ensures PyInt([c, c], 16).Ok? <==> IsHexDigit(c)
    ensures IsHexDigit(c) ==> PyInt([c, c], 16) == Ok(17 * HexDigitValue(c))
  {
    var t := [c, c];
    if IsSpace(c) {
      assert LStrip(t[1..]) == [];
      assert Strip(t) == [];
    } else {
      StripClean(t);
      var body := if c == '+' || c == '-' then t[1..] else t;
      assert body != [] && body[0] == c;
      if IsHexDigit(c) {
        assert body == t;
        ValueOf2(t, 16);
      } else {
        assert !IsDigitOf(body[0], 16);
      }
    }
  }

  // ---------------------------------------------------------------------------
  // parse_color

  /** A background: a colour, or the terminal's own background. */
  datatype Color = Rgb(r: int, g: int, b: int) | Terminal

  predicate InByte(v: int) {
    0 <= v <= 255
  }

  /** The colours parse_color knows by name, as (name, colour) entries. */
  const COLOR_NAMES: seq<(string, Color)> := [
    ("black", Rgb(0, 0, 0)),
    ("white", Rgb(255, 255, 255)),
    ("red", Rgb(255, 0, 0)),
    ("green", Rgb(0, 255, 0)),
    ("blue", Rgb(0, 0, 255)),
    ("yellow", Rgb(255, 255, 0)),
    ("magenta", Rgb(255, 0, 255)),
    ("cyan", Rgb(0, 255, 255)),
    ("gray", Rgb(128, 128, 128)),
    ("grey", Rgb(128, 128, 128)),
    ("orange", Rgb(255, 165, 0)),
    ("purple", Rgb(128, 0, 128)),
    ("brown", Rgb(165, 42, 42)),
    ("pink", Rgb(255, 192, 203)),
    ("terminal", Terminal)
  ]

  /** The colour a table gives a name, from its first entry with that name. */
  function Lookup(s: string, table: seq<(string, Color)>): Option<Color> {
    if table == [] then None
    else if table[0].0 == s then Some(table[0].1)
    else Lookup(s, table[1..])
  }

  /** A name is found exactly when an entry has it, and then with that entry's colour. */
  lemma {:induction false} LookupEntry(s: string, table: seq<(string, Color)>)
    ensures Lookup(s, table).Some? ==> exists j :: 0 <= j < |table| && table[j] == (s, Lookup(s, table).value)
    ensures Lookup(s, table).None? ==> forall j :: 0 <= j < |table| ==> table[j].0 != s
  {
    if table != [] && table[0].0 != s {
      LookupEntry(s, table[1..]);
      assert forall j :: 1 <= j < |table| ==> table[j] == table[1..][j - 1];
      if Lookup(s, table).Some? {
        var j :| 0 <= j < |table[1..]| && table[1..][j] == (s, Lookup(s, table).value);
        assert table[j + 1] == table[1..][j];
      }
    }
  }

  /** A string of small letters. */
  predicate IsWord(s: string) {
    forall m :: 0 <= m < |s| ==> 'a' <= s[m] <= 'z'
  }

  /** Every name is a word and every named colour has its components in [0, 255]. */
  lemma NamesTable(j: int)
    requires 0 <= j < |COLOR_NAMES|
    ensures IsWord(COLOR_NAMES[j].0)
    ensures var c := COLOR_NAMES[j].1; c.Rgb? ==> InByte(c.r) && InByte(c.g) && InByte(c.b)
  {
  }

  /** So no `#` form or `r,g,b` form is a name. */
  lemma NamesAreWords(s: string, i: int)
    requires 0 <= i < |s| && !('a' <= s[i] <= 'z')
    ensures Lookup(s, COLOR_NAMES) == None
  {
    LookupEntry(s, COLOR_NAMES);
    if Lookup(s, COLOR_NAMES).Some? {
      var j :| 0 <= j < |COLOR_NAMES| && COLOR_NAMES[j] == (s, Lookup(s, COLOR_NAMES).value);
      NamesTable(j);
    }
  }

  /** The value of one hex component; as written it is int(t, 16), which also accepts
      white space and a sign, while the strict reading demands hex digits only. */
  function HexComponent(t: string, strict: bool): (r: Result<int>)
    ensures strict && r.Ok? ==> InByte(r.value) || |t| != 2
  {
    if !strict then PyInt(t, 16)
    else if |t| == 2 && IsHexDigit(t[0]) && IsHexDigit(t[1]) then
      Ok(16 * HexDigitValue(t[0]) + HexDigitValue(t[1]))
    else Error
  }

  /** A colour from three components, or ValueError if one raised. */
  function Components(r: Result<int>, g: Result<int>, b: Result<int>): Result<Color> {
    if r.Ok? && g.Ok? && b.Ok? then Ok(Rgb(r.value, g.value, b.value)) else Error
  }

  /** One field of `^\d{1,3},\d{1,3},\d{1,3}$`. */
  predicate DecimalField(p: string) {
    1 <= |p| <= 3 && forall i :: 0 <= i < |p| ==> IsDigit(p[i])
  }

  /** `^\d{1,3},\d{1,3},\d{1,3}$`. */
  predicate TripleForm(s: string) {
    var parts := Split(s, ',');
    |parts| == 3 && DecimalField(parts[0]) && DecimalField(parts[1]) && DecimalField(parts[2])
  }

  /** The `r,g,b` form: three fields of one to three digits; the colour if each is at most
      255, black otherwise and for any string of another form. */
  function RgbTriple(s: string): (c: Color)
    ensures c.Rgb? && InByte(c.r) && InByte(c.g) && InByte(c.b)
    ensures !TripleForm(s) ==> c == Rgb(0, 0, 0)
  {
    var parts := Split(s, ',');
    if TripleForm(s) then
      var r, g, b := DigitsValue(parts[0]), DigitsValue(parts[1]), DigitsValue(parts[2]);
      if r <= 255 && g <= 255 && b <= 255 then Rgb(r, g, b) else Rgb(0, 0, 0)
    else Rgb(0, 0, 0)
  }

  /** parse_color on the stripped, lower-cased string, with the hex components read as
      written (strict false) or as hex digits only (strict true). */
  function ParseNormalized(s: string, strict: bool): Result<Color> {
    match Lookup(s, COLOR_NAMES)
    case Some(c) => Ok(c)
    case None => ParseForm(s, strict)
  }

  /** The forms other than a name: `#RGB`, `#RRGGBB`, `r,g,b`, and black for anything else. */
  function ParseForm(s: string, strict: bool): Result<Color> {
    if |s| == 4 && s[0] == '#' then
      Components(HexComponent([s[1], s[1]], strict), HexComponent([s[2], s[2]], strict),
        HexComponent([s[3], s[3]], strict))
    else if |s| == 7 && s[0] == '#' then
      Components(HexComponent([s[1], s[2]], strict), HexComponent([s[3], s[4]], strict),
        HexComponent([s[5], s[6]], strict))
    else Ok(RgbTriple(s))
  }

  /** parse_color as written: a named colour, `#RGB`, `#RRGGBB`, `r,g,b`, or black;
      Error is the ValueError int() raises on a bad hex component, so it arises only from
      the `#RGB` and `#RRGGBB` forms. */
  function ParseColor(colorStr: string): (r: Result<Color>)
    ensures var s := Lower(Strip(colorStr));
      r.Error? ==> |s| > 0 && s[0] == '#' && (|s| == 4 || |s| == 7)
  {
    ParseNormalized(Lower(Strip(colorStr)), false)
  }

  /** parse_color with each hex component required to be two hex digits. */
  function ParseColorStrict(colorStr: string): Result<Color> {
    ParseNormalized(Lower(Strip(colorStr)), true)
  }

  /** The parser ignores case and surrounding white space: a string parses as its own
      stripped, lower-cased form. */
  lemma ParseColorNormalized(colorStr: string)
    ensures ParseColor(colorStr) == ParseColor(Lower(Strip(colorStr)))
    ensures ParseColorStrict(colorStr) == ParseColorStrict(Lower(Strip(colorStr)))
  {
    var s := Strip(colorStr);
    StripClean(s);
    LowerStripped(s);
    LowerTwice(s);
  }

  /** The characters of the `#` and `r,g,b` forms and of the names. */
  predicate Plain(c: char) {
    IsDigit(c) || 'a' <= c <= 'z' || c == '#' || c == ',' || c == '-'
  }

  /** A string of plain characters is its own stripped, lower-cased form. */
  lemma ParseClean(s: string)
    requires s != [] && forall i :: 0 <= i < |s| ==> Plain(s[i])
    ensures ParseColor(s) == ParseNormalized(s, false) && ParseColorStrict(s) == ParseNormalized(s, true)
  {
    assert Plain(s[0]) && Plain(s[|s| - 1]);
    StripClean(s);
    assert forall i :: 0 <= i < |s| ==> !('A' <= s[i] <= 'Z');
    LowerTwice(s);
  }

  /** A string with a character other than a small letter is no name. */
  lemma NotNamed(s: string, i: int)
    requires 0 <= i < |s| && !('a' <= s[i] <= 'z')
    ensures ParseNormalized(s, false) == ParseForm(s, false) && ParseNormalized(s, true) == ParseForm(s, true)
  {
    NamesAreWords(s, i);
  }

  /** Lookup returns the entry at j when no earlier entry has its name. */
  lemma {:induction false} LookupAt(s: string, table: seq<(string, Color)>, j: int)
    requires 0 <= j < |table| && table[j].0 == s
    requires forall i :: 0 <= i < j ==> table[i].0 != s
    ensures Lookup(s, table) == Some(table[j].1)
  {
    if j > 0 {
      LookupAt(s, table[1..], j - 1);
    }
  }

  /** No two entries share a name. */
  lemma NamesDistinct(i: int, j: int)
    requires 0 <= i < j < |COLOR_NAMES|
    ensures COLOR_NAMES[i].0 != COLOR_NAMES[j].0
  {
  }

  /** Each name of the table looks up its own colour. */
  lemma NamedLookup(j: int)
    requires 0 <= j < |COLOR_NAMES|
    ensures Lookup(COLOR_NAMES[j].0, COLOR_NAMES) == Some(COLOR_NAMES[j].1)
  {
    forall i | 0 <= i < j
      ensures COLOR_NAMES[i].0 != COLOR_NAMES[j].0
    {
      NamesDistinct(i, j);
    }
    LookupAt(COLOR_NAMES[j].0, COLOR_NAMES, j);
  }

  /** A name, in any case and with any surrounding white space, gives its entry's colour. */
  lemma NamedColors(colorStr: string, j: int)
    requires 0 <= j < |COLOR_NAMES| && Lower(Strip(colorStr)) == COLOR_NAMES[j].0
    ensures ParseColor(colorStr) == Ok(COLOR_NAMES[j].1)
  {
    NamedLookup(j);
  }

  /** `#RGB` parses exactly when its three characters are hex digits, each doubled. */
  lemma ShortHex(colorStr: string)
    requires var s := Lower(Strip(colorStr)); |s| == 4 && s[0] == '#'
    ensures var s := Lower(Strip(colorStr));
      ParseColor(colorStr).Ok? <==> IsHexDigit(s[1]) && IsHexDigit(s[2]) && IsHexDigit(s[3])
    ensures var s := Lower(Strip(colorStr));
      ParseColor(colorStr).Ok? ==>
        ParseColor(colorStr) == Ok(Rgb(17 * HexDigitValue(s[1]), 17 * HexDigitValue(s[2]), 17 * HexDigitValue(s[3])))
  {
    var s := Lower(Strip(colorStr));
    NotNamed(s, 0);
    DoubledDigit(s[1]);
    DoubledDigit(s[2]);
    DoubledDigit(s[3]);
  }

  /** A hex digit int() and the strict reading both accept. */
  predicate SmallHex(c: char) {
    IsDigit(c) || 'a' <= c <= 'f'
  }

  /** The value of the hex digit pair `ab`. */
  function PairValue(a: char, b: char): int
    requires IsHexDigit(a) && IsHexDigit(b)
  {
    16 * HexDigitValue(a) + HexDigitValue(b)
  }

  /** Two hex digits read as 16 times the first plus the second, as written and strictly. */
  lemma HexPair(a: char, b: char)
    requires IsHexDigit(a) && IsHexDigit(b)
    ensures HexComponent([a, b], false) == Ok(PairValue(a, b)) && HexComponent([a, b], true) == Ok(PairValue(a, b))
  {
    var t := [a, b];
    assert !IsSpace(a) && !IsSpace(b);
    StripClean(t);
    assert !(a == '+' || a == '-');
    assert DigitsOf(t, 16);
    ValueOf2(t, 16);
  }

  /** `#` and six small hex digits. */
  predicate LongHexForm(s: string) {
    |s| == 7 && s[0] == '#' && forall i :: 1 <= i < 7 ==> SmallHex(s[i])
  }

  /** The characters of `#RRGGBB` are plain. */
  lemma LongHexPlain(s: string)
    requires LongHexForm(s)
    ensures forall i :: 0 <= i < |s| ==> Plain(s[i])
  {
  }

  /** The `#RRGGBB` branch reads the three pairs, as written and strictly. */
  lemma LongForm(s: string)
    requires LongHexForm(s)
    ensures SmallHex(s[1]) && SmallHex(s[2]) && SmallHex(s[3]) && SmallHex(s[4]) && SmallHex(s[5]) && SmallHex(s[6])
    ensures var c := Ok(Rgb(PairValue(s[1], s[2]), PairValue(s[3], s[4]), PairValue(s[5], s[6])));
      ParseForm(s, false) == c && ParseForm(s, true) == c
  {
    assert SmallHex(s[1]) && SmallHex(s[2]) && SmallHex(s[3]) && SmallHex(s[4]) && SmallHex(s[5]) && SmallHex(s[6]);
    HexPair(s[1], s[2]);
    HexPair(s[3], s[4]);
    HexPair(s[5], s[6]);
  }

  /** `#RRGGBB` in small hex digits reads as its three pairs, as written and strictly. */
  lemma LongHex(s: string)
    requires LongHexForm(s)
    ensures SmallHex(s[1]) && SmallHex(s[2]) && SmallHex(s[3]) && SmallHex(s[4]) && SmallHex(s[5]) && SmallHex(s[6])
    ensures var c := Ok(Rgb(PairValue(s[1], s[2]), PairValue(s[3], s[4]), PairValue(s[5], s[6])));
      ParseColor(s) == c && ParseColorStrict(s) == c
  {
    LongHexPlain(s);
    ParseClean(s);
    NotNamed(s, 0);
    LongForm(s);
  }

  /** The two small hex digits of 0 <= v < 256. */
  function Hex2(v: int): (t: string)
    requires InByte(v)
    ensures |t| == 2 && SmallHex(t[0]) && SmallHex(t[1])
    ensures 16 * HexDigitValue(t[0]) + HexDigitValue(t[1]) == v
  {
    var hi, lo := v / 16, v % 16;
    [if hi < 10 then '0' + hi as char else 'a' + (hi - 10) as char,
     if lo < 10 then '0' + lo as char else 'a' + (lo - 10) as char]
  }

  /** A colour written as `#RRGGBB` reads back as itself. */
  lemma LongHexShow(r: int, g: int, b: int)
    requires InByte(r) && InByte(g) && InByte(b)
    ensures ParseColor("#" + Hex2(r) + Hex2(g) + Hex2(b)) == Ok(Rgb(r, g, b))
    ensures ParseColorStrict("#" + Hex2(r) + Hex2(g) + Hex2(b)) == Ok(Rgb(r, g, b))
  {
    var x, y, z := Hex2(r), Hex2(g), Hex2(b);
    var s := "#" + x + y + z;
    assert s[1] == x[0] && s[2] == x[1] && s[3] == y[0] && s[4] == y[1] && s[5] == z[0] && s[6] == z[1];
    assert LongHexForm(s);
    LongHex(s);
    assert PairValue(s[1], s[2]) == r && PairValue(s[3], s[4]) == g && PairValue(s[5], s[6]) == b;
  }

  /** `r,g,b` with one to three digits per field is the colour when every field is at most
      255, and black otherwise. */
  lemma RgbForm(p: string, q: string, u: string)
    requires DecimalField(p) && DecimalField(q) && DecimalField(u)
    ensures var r, g, b := DigitsValue(p), DigitsValue(q), DigitsValue(u);
      ParseColor(p + "," + q + "," + u) ==
        if r <= 255 && g <= 255 && b <= 255 then Ok(Rgb(r, g, b)) else Ok(Rgb(0, 0, 0))
  {
    var s := p + [','] + (q + [','] + u);
    assert p + "," + q + "," + u == s;
    RgbPlain(p, q, u);
    ParseClean(s);
    assert s[|p|] == ',';
    NotNamed(s, |p|);
    RgbFields(p, q, u);
  }

  /** The `r,g,b` branch reads the three fields. */
  lemma RgbFields(p: string, q: string, u: string)
    requires DecimalField(p) && DecimalField(q) && DecimalField(u)
    ensures var r, g, b := DigitsValue(p), DigitsValue(q), DigitsValue(u);
      ParseForm(p + [','] + (q + [','] + u), false) ==
        if r <= 255 && g <= 255 && b <= 255 then Ok(Rgb(r, g, b)) else Ok(Rgb(0, 0, 0))
  {
    var s := p + [','] + (q + [','] + u);
    RgbSplit(p, q, u);
    assert s[0] == p[0] && IsDigit(p[0]);
  }

  /** The characters of `r,g,b` are plain. */
  lemma RgbPlain(p: string, q: string, u: string)
    requires DecimalField(p) && DecimalField(q) && DecimalField(u)
    ensures var s := p + [','] + (q + [','] + u); s != [] && forall i :: 0 <= i < |s| ==> Plain(s[i])
  {
    var s := p + [','] + (q + [','] + u);
    forall i | 0 <= i < |s|
      ensures Plain(s[i])
    {
      if i < |p| {
        assert s[i] == p[i];
      } else if i > |p| + |q| + 1 {
        assert s[i] == u[i - |p| - |q| - 2];
      } else if |p| < i < |p| + |q| + 1 {
        assert s[i] == q[i - |p| - 1];
      }
    }
  }

  /** `r,g,b` splits on commas into its three fields. */
  lemma RgbSplit(p: string, q: string, u: string)
    requires DecimalField(p) && DecimalField(q) && DecimalField(u)
    ensures Split(p + [','] + (q + [','] + u), ',') == [p, q, u]
  {
    assert ',' !in p && ',' !in q && ',' !in u;
    SplitJoin(p, ',', q + [','] + u);
    SplitJoin(q, ',', u);
  }

  /** Every named colour has its components in [0, 255]. */
  lemma NamedInRange(s: string)
    ensures var r := Lookup(s, COLOR_NAMES); r.Some? && r.value.Rgb? ==>
      InByte(r.value.r) && InByte(r.value.g) && InByte(r.value.b)
  {
    LookupEntry(s, COLOR_NAMES);
    if Lookup(s, COLOR_NAMES).Some? {
      var j :| 0 <= j < |COLOR_NAMES| && COLOR_NAMES[j] == (s, Lookup(s, COLOR_NAMES).value);
      NamesTable(j);
    }
  }

  /** Error arises only from a `#RGB` or `#RRGGBB` form with a component int() rejects, and
      every colour not read from `#RRGGBB` has its components in [0, 255]. */
  lemma FormOutcomes(s: string)
    ensures ParseForm(s, false).Error? ==> |s| > 0 && s[0] == '#' && (|s| == 4 || |s| == 7)
    ensures ParseForm(s, false).Ok? && ParseForm(s, false).value.Rgb? && !(|s| == 7 && s[0] == '#') ==>
      var c := ParseForm(s, false).value; InByte(c.r) && InByte(c.g) && InByte(c.b)
  {
    if |s| == 4 && s[0] == '#' {
      DoubledDigit(s[1]);
      DoubledDigit(s[2]);
      DoubledDigit(s[3]);
    }
  }

  /** parse_color as written: Error only for a `#RGB` or `#RRGGBB` form, and components in
      [0, 255] for every colour except one read from `#RRGGBB`. */
  lemma ParseColorOutcomes(colorStr: string)
    ensures var s := Lower(Strip(colorStr));
      ParseColor(colorStr).Error? ==> |s| > 0 && s[0] == '#' && (|s| == 4 || |s| == 7)
    ensures var s := Lower(Strip(colorStr));
      ParseColor(colorStr).Ok? && ParseColor(colorStr).value.Rgb? && !(|s| == 7 && s[0] == '#') ==>
        var c := ParseColor(colorStr).value; InByte(c.r) && InByte(c.g) && InByte(c.b)
  {
    var s := Lower(Strip(colorStr));
    NamedInRange(s);
    FormOutcomes(s);
  }

  /** Anything that is not a name, not `#` with three or six more characters and not three
      fields of one to three digits parses as black. */
  lemma ParseColorBlack(colorStr: string)
    requires var s := Lower(Strip(colorStr));
      (forall j :: 0 <= j < |COLOR_NAMES| ==> COLOR_NAMES[j].0 != s) &&
      !(|s| > 0 && s[0] == '#' && (|s| == 4 || |s| == 7)) && !TripleForm(s)
    ensures ParseColor(colorStr) == Ok(Rgb(0, 0, 0))
  {
    LookupEntry(Lower(Strip(colorStr)), COLOR_NAMES);
  }

  /** `#-` and five small hex digits. */
  predicate NegativeHexForm(s: string) {
    |s| == 7 && s[0] == '#' && s[1] == '-' && forall i :: 2 <= i < 7 ==> SmallHex(s[i])
  }

  /** The characters of `#-` and five hex digits are plain. */
  lemma NegativePlain(s: string)
    requires NegativeHexForm(s)
    ensures forall i :: 0 <= i < |s| ==> Plain(s[i])
  {
  }

  /** A minus sign and one hex digit read as minus the digit's value. */
  lemma ReadMinus(t: string)
    requires |t| == 2 && t[0] == '-' && SmallHex(t[1])
    ensures ReadSigned(t, 16) == Ok(-(HexDigitValue(t[1]) as int))
  {
    assert t[1..] == [t[1]];
    assert DigitsOf([t[1]], 16);
    ValueOf1(t[1], 16);
  }

  /** int('-d', 16) is minus the digit's value. */
  lemma MinusDigit(a: char, d: char)
    requires a == '-' && SmallHex(d)
    ensures HexComponent([a, d], false) == Ok(-(HexDigitValue(d) as int))
  {
    var t := [a, d];
    assert !IsSpace(t[0]) && !IsSpace(t[1]);
    StripClean(t);
    ReadMinus(t);
  }

  /** The `#RRGGBB` branch reads `-d` as a negative red component. */
  lemma NegativeForm(s: string, r: int, g: int, b: int)
    requires NegativeHexForm(s)
    requires r == -(HexDigitValue(s[2]) as int) && g == PairValue(s[3], s[4]) && b == PairValue(s[5], s[6])
    ensures ParseForm(s, false) == Ok(Rgb(r, g, b))
  {
    assert HexComponent([s[1], s[2]], false) == Ok(r) by { MinusDigit(s[1], s[2]); }
    assert HexComponent([s[3], s[4]], false) == Ok(g) by { HexPair(s[3], s[4]); }
    assert HexComponent([s[5], s[6]], false) == Ok(b) by { HexPair(s[5], s[6]); }
    SevenForm(s, false, r, g, b);
  }

  /** A seven-character `#` string whose three character pairs read as r, g and b is the
      colour (r, g, b). */
  lemma SevenForm(s: string, strict: bool, r: int, g: int, b: int)
    requires |s| == 7 && s[0] == '#'
    requires HexComponent([s[1], s[2]], strict) == Ok(r) && HexComponent([s[3], s[4]], strict) == Ok(g)
    requires HexComponent([s[5], s[6]], strict) == Ok(b)
    ensures ParseForm(s, strict) == Ok(Rgb(r, g, b))
  {
  }

  /** As written, int(t, 16) takes a sign, so `#-` and five hex digits parse with a
      negative red component (-1 for `#-10000`), outside [0, 255]. */
  lemma NegativeComponent(s: string, r: int, g: int, b: int)
    requires NegativeHexForm(s)
    requires r == -(HexDigitValue(s[2]) as int) && g == PairValue(s[3], s[4]) && b == PairValue(s[5], s[6])
    ensures ParseColor(s) == Ok(Rgb(r, g, b))
    ensures s[2] != '0' ==> !InByte(r)
  {
    NegativePlain(s);
    ParseClean(s);
    NotNamed(s, 0);
    NegativeForm(s, r, g, b);
    ZeroDigit(s[2]);
  }

  /** The input `#-10000` parses to a red component of -1. */
  lemma NegativeExample(s: string)
    requires |s| == 7 && s[0] == '#' && s[1] == '-' && s[2] == '1' && forall i :: 3 <= i < 7 ==> s[i] == '0'
    ensures s == "#-10000"
    ensures ParseColor(s) == Ok(Rgb(-1, 0, 0))
  {
    assert NegativeHexForm(s);
    ExampleDigits();
    NegativeComponent(s, -1, 0, 0);
  }

  lemma ExampleDigits()
    ensures IsHexDigit('1') && IsHexDigit('0') && HexDigitValue('1') == 1 && PairValue('0', '0') == 0
  {
  }

  /** Only the digit 0 is worth nothing. */
  lemma ZeroDigit(c: char)
    requires IsHexDigit(c)
    ensures HexDigitValue(c) == 0 <==> c == '0'
  {
  }

  /** Strictly read, every form gives components in [0, 255], and whatever the strict
      reading accepts the written one reads alike. */
  lemma StrictForm(s: string)
    ensures ParseForm(s, true).Ok? && ParseForm(s, true).value.Rgb? ==>
      var c := ParseForm(s, true).value; InByte(c.r) && InByte(c.g) && InByte(c.b)
    ensures ParseForm(s, true).Ok? ==> ParseForm(s, false) == ParseForm(s, true)
  {
    if |s| == 4 && s[0] == '#' && ParseForm(s, true).Ok? {
      HexPair(s[1], s[1]);
      HexPair(s[2], s[2]);
      HexPair(s[3], s[3]);
    } else if |s| == 7 && s[0] == '#' && ParseForm(s, true).Ok? {
      HexPair(s[1], s[2]);
      HexPair(s[3], s[4]);
      HexPair(s[5], s[6]);
    }
  }

  /** With hex digits required, every colour parse_color returns has its components in
      [0, 255], and whatever the strict reading accepts the written one accepts alike. */
  lemma ParseColorStrictInRange(colorStr: string)
    ensures ParseColorStrict(colorStr).Ok? && ParseColorStrict(colorStr).value.Rgb? ==>
      var c := ParseColorStrict(colorStr).value; InByte(c.r) && InByte(c.g) && InByte(c.b)
    ensures ParseColorStrict(colorStr).Ok? ==> ParseColor(colorStr) == ParseColorStrict(colorStr)
  {
    var s := Lower(Strip(colorStr));
    NamedInRange(s);
    StrictForm(s);
  }

  // ---------------------------------------------------------------------------
  // The crop rectangle

  /** The region to draw, corners included. */
  datatype Crop = Crop(startX: int, startY: int, endX: int, endY: int)

  /** Why main exits: a coordinate pair it cannot read, or the first check that fails. */
  datatype CropError =
    | BadStart | BadEnd
    | StartXOutside | StartYOutside | EndXOutside | EndYOutside
    | StartXAfterEnd | StartYAfterEnd

  datatype CropResult = Accepted(crop: Crop) | Rejected(error: CropError)

  /** map(int, s.split(',')) unpacked into two names: exactly two fields, each an int. A
      string that reads is two comma-free fields joined by one comma, and the coordinates
      are what int() makes of them. */
  function ParseCoords(s: string): (r: Result<(int, int)>)
    ensures r.Ok? ==> var parts := Split(s, ',');
      |parts| == 2 && s == parts[0] + "," + parts[1] && ',' !in parts[0] && ',' !in parts[1] &&
      PyInt(parts[0], 10) == Ok(r.value.0) && PyInt(parts[1], 10) == Ok(r.value.1)
  {
    var parts := Split(s, ',');
    if |parts| != 2 then Error
    else
      TwoFields(s);
      match (PyInt(parts[0], 10), PyInt(parts[1], 10))
      case (Ok(x), Ok(y)) => Ok((x, y))
      case _ => Error
  }

  /** The six checks main makes, in its order; None when all pass, which is exactly when
      both corners are inside the image and the start is at or before the end on each
      axis. */
  function CheckCrop(c: Crop, width: int, height: int): (r: Option<CropError>)
    ensures r == None <==> 0 <= c.startX <= c.endX < width && 0 <= c.startY <= c.endY < height
  {
    if !(0 <= c.startX < width) then Some(StartXOutside)
    else if !(0 <= c.startY < height) then Some(StartYOutside)
    else if !(0 <= c.endX < width) then Some(EndXOutside)
    else if !(0 <= c.endY < height) then Some(EndYOutside)
    else if c.startX > c.endX then Some(StartXAfterEnd)
    else if c.startY > c.endY then Some(StartYAfterEnd)
    else None
  }

  /** The crop main takes from `-f` and `-t` (an empty string when the option is absent)
      for an image of the given size: the whole image by default. */
  function SelectCrop(from: string, to: string, width: int, height: int): (r: CropResult)
    ensures r.Accepted? ==> CheckCrop(r.crop, width, height) == None
  {
    var start := if from == [] then Ok((0, 0)) else ParseCoords(from);
    var end := if to == [] then Ok((width - 1, height - 1)) else ParseCoords(to);
    if start.Error? then Rejected(BadStart)
    else if end.Error? then Rejected(BadEnd)
    else
      var c := Crop(start.value.0, start.value.1, end.value.0, end.value.1);
      match CheckCrop(c, width, height)
      case Some(e) => Rejected(e)
      case None => Accepted(c)
  }

  /** A string of two fields is those fields joined by a comma, neither holding one. */
  lemma TwoFields(s: string)
    requires |Split(s, ',')| == 2
    ensures var parts := Split(s, ',');
      s == parts[0] + "," + parts[1] && ',' !in parts[0] && ',' !in parts[1]
  {
    var parts := Split(s, ',');
    SplitParts(s, ',');
    JoinSplit(s, ',');
    assert Join(parts, ',') == parts[0] + [','] + Join(parts[1..], ',');
  }

  /** A number's decimal form has no comma in it. */
  lemma NoComma(n: int)
    ensures ',' !in ShowInt(n)
  {
    if n < 0 {
      var ds := ShowNat(-n);
      assert ShowInt(n) == "-" + ds;
      assert forall i :: 0 <= i < |ds| ==> ds[i] != ',';
    } else {
      var ds := ShowNat(n);
      assert forall i :: 0 <= i < |ds| ==> ds[i] != ',';
    }
  }

  /** Two fields joined by one comma split back into those fields. */
  lemma SplitPair(a: string, b: string)
    requires ',' !in a && ',' !in b
    ensures Split(a + "," + b, ',') == [a, b]
  {
    assert a + "," + b == a + [','] + b;
    SplitJoin(a, ',', b);
  }

  /** Two coordinates written as `x,y` read back as themselves. */
  lemma CoordsShow(x: int, y: int)
    ensures ParseCoords(ShowInt(x) + "," + ShowInt(y)) == Ok((x, y))
  {
    NoComma(x);
    NoComma(y);
    SplitPair(ShowInt(x), ShowInt(y));
    PyIntShow(x);
    PyIntShow(y);
  }

  /** With both options given as `x,y`, the crop is accepted exactly when it lies inside
      the image with its corners in order, and is then the rectangle written. */
  lemma SelectCropShow(c: Crop, width: int, height: int)
    ensures var r := SelectCrop(ShowInt(c.startX) + "," + ShowInt(c.startY),
        ShowInt(c.endX) + "," + ShowInt(c.endY), width, height);
      (r.Accepted? <==> 0 <= c.startX <= c.endX < width && 0 <= c.startY <= c.endY < height) &&
      (r.Accepted? ==> r.crop == c)
  {
    var from, to := ShowInt(c.startX) + "," + ShowInt(c.startY), ShowInt(c.endX) + "," + ShowInt(c.endY);
    assert ParseCoords(from) == Ok((c.startX, c.startY)) by { CoordsShow(c.startX, c.startY); }
    assert ParseCoords(to) == Ok((c.endX, c.endY)) by { CoordsShow(c.endX, c.endY); }
    SelectCropParsed(from, to, c, width, height);
  }

  /** Two strings that read as the corners of c select c, when the checks pass. */
  lemma SelectCropParsed(from: string, to: string, c: Crop, width: int, height: int)
    requires ParseCoords(from) == Ok((c.startX, c.startY)) && ParseCoords(to) == Ok((c.endX, c.endY))
    ensures var r := SelectCrop(from, to, width, height);
      (r.Accepted? <==> 0 <= c.startX <= c.endX < width && 0 <= c.startY <= c.endY < height) &&
      (r.Accepted? ==> r.crop == c)
  {
    assert |from| > 0 && |to| > 0;
    var r := SelectCrop(from, to, width, height);
    assert r == match CheckCrop(c, width, height) case Some(e) => Rejected(e) case None => Accepted(c);
  }

  /** Without options the whole image is drawn, which needs a non-empty image. */
  lemma WholeImage(width: int, height: int)
    ensures SelectCrop("", "", width, height) ==
      if width >= 1 && height >= 1 then Accepted(Crop(0, 0, width - 1, height - 1))
      else Rejected(if width < 1 then StartXOutside else StartYOutside)
  {
  }
}
