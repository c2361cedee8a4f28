/**
 * The text form of API keys: `agnt_<env>_<body><checksum>`, the body and the checksum
 * in base 62.
 */
module ApiKeys {
  import opened LinearRegisters
  import opened Crc32

  const UPPER := "ABCDEFGHIJKLMNOPQRSTUVWXYZ"
  const LOWER := "abcdefghijklmnopqrstuvwxyz"
  const DECIMAL := "0123456789"
  const BASE62 := UPPER + LOWER + DECIMAL
  const PREFIX_LENGTH := 18
  const CHECKSUM_LENGTH := 6

  datatype Env = Live | Test
  datatype MintedKey = MintedKey(plaintext: string, prefix: string, last4: string)

  type Octet = b: int | 0 <= b < 256

  /// ## Base 62

  function Pow(b: nat, k: nat): (r: nat) {
    if k == 0 then 1 else b * Pow(b, k - 1)
  }

  /** The digits of a number, none for zero. */
  function Digits(n: nat): (r: string) {
    if n == 0 then "" else Digits(n / 62) + [BASE62[n % 62]]
  }

  function Encoded(n: nat): (r: string) {
    if n == 0 then "0" else Digits(n)
  }

  /** The place of a character in the alphabet. */
  function Index(c: char): (r: nat) {
    if 'A' <= c <= 'Z' then c as int - 65
    else if 'a' <= c <= 'z' then 26 + (c as int - 97)
    else if '0' <= c <= '9' then 52 + (c as int - 48)
    else 0
  }

  function Value(s: string): (r: nat) {
    if s == "" then 0 else 62 * Value(s[..|s| - 1]) + Index(s[|s| - 1])
  }

  predicate Alnum(c: char) {
    'A' <= c <= 'Z' || 'a' <= c <= 'z' || '0' <= c <= '9'
  }

  predicate AllAlnum(s: string) {
    forall i: nat :: i < |s| ==> Alnum(s[i])
  }

  function BigEndian(bytes: seq<Octet>): (r: nat) {
    if bytes == [] then 0 else 256 * BigEndian(bytes[..|bytes| - 1]) + bytes[|bytes| - 1]
  }

  function Reversed(s: string): (r: string) {
    if s == "" then "" else [s[|s| - 1]] + Reversed(s[..|s| - 1])
  }

  method Base62Encode(bytes: seq<Octet>) returns (text: string)
    requires bytes != []
    ensures text == Encoded(BigEndian(bytes))
  {
    var n: nat := BigEndian(bytes);
    if n == 0 { return "0"; }
    ghost var all := n;
    var out: string := "";
    while n > 0
      invariant Digits(all) == Digits(n) + Reversed(out)
    {
      out := out + [BASE62[n % 62]];
      n := n / 62;
    }
    text := Reverse(out);
  }

  method Reverse(s: string) returns (r: string)
    ensures r == Reversed(s)
  {
    r := "";
    for i := 0 to |s|
      invariant r == Reversed(s[..i])
    {
      assert s[..i + 1][..i] == s[..i];
      r := [s[i]] + r;
    }
    assert s[..|s|] == s;
  }

  function Zeros(k: nat): (r: string) {
    if k == 0 then "" else ['0'] + Zeros(k - 1)
  }

  function PadStart(s: string, k: nat): (r: string) {
    if |s| >= k then s else Zeros(k - |s|) + s
  }

  /** A checksum as it is printed. */
  function Padded(crc: nat): (r: string) {
    PadStart(Digits(crc), CHECKSUM_LENGTH)
  }

  function CrcText(input: string): (r: string) {
    Padded(Crc(input))
  }

  method Crc32Base62(input: string) returns (text: string)
    ensures text == CrcText(input)
  {
    var crc := ComputeCrc(input);
    var s := PrintDigits(crc);
    text := PadStart(s, CHECKSUM_LENGTH);
  }

  method PrintDigits(crc: nat) returns (s: string)
    ensures s == Digits(crc)
  {
    var n: nat := crc;
    s := "";
    while n > 0
      invariant Digits(crc) == Digits(n) + s
    {
      s := [BASE62[n % 62]] + s;
      n := n / 62;
    }
  }

  /// ### Digits and their value

  lemma AlphabetIndex(i: nat)
    requires i < 62
    ensures Alnum(BASE62[i]) && Index(BASE62[i]) == i
  {
    if 26 <= i < 52 { LowerLetters(i); }
  }

  lemma LowerLetters(i: nat)
    requires 26 <= i < 52
    ensures BASE62[i] as int == 71 + i
  {
    assert LOWER[i - 26] as int == 71 + i;
  }

  lemma IndexBound(c: char)
    ensures Index(c) < 62
  {
  }

  lemma IndexInjective(c: char, d: char)
    requires Alnum(c) && Alnum(d) && Index(c) == Index(d)
    ensures c == d
  {
  }

  /** Reading the digits of a number by their places gives the number back. */
  lemma {:induction false} DigitsDecode(n: nat)
    ensures Value(Digits(n)) == n && AllAlnum(Digits(n))
  {
    if n > 0 {
      DigitsDecode(n / 62);
      AlphabetIndex(n % 62);
      assert Digits(n)[..|Digits(n)| - 1] == Digits(n / 62);
    }
  }

  lemma SameLastDigit(m: nat, n: nat, c: char, d: char)
    requires Alnum(c) && Alnum(d) && 62 * m + Index(c) == 62 * n + Index(d)
    ensures m == n && c == d
  {
    IndexBound(c);
    IndexBound(d);
    IndexInjective(c, d);
  }

  lemma {:induction false} SameValue(s: string, t: string)
    requires |s| == |t| && AllAlnum(s) && AllAlnum(t) && Value(s) == Value(t)
    ensures s == t
    decreases |s|
  {
    if s != "" {
      var s', t', c, d := s[..|s| - 1], t[..|t| - 1], s[|s| - 1], t[|t| - 1];
      assert s == s' + [c] && t == t' + [d];
      assert Value(s) == 62 * Value(s') + Index(c) && Value(t) == 62 * Value(t') + Index(d);
      SameLastDigit(Value(s'), Value(t'), c, d);
      SameValue(s', t');
    }
  }

  /** `base62Encode` can be undone except that 0 and 52 are both printed as "0". */
  lemma EncodedSameIff(a: nat, b: nat)
    ensures Encoded(a) == Encoded(b) <==> a == b || (a == 0 && b == 52) || (a == 52 && b == 0)
    ensures a > 0 ==> Value(Encoded(a)) == a
  {
    EncodedValue(a);
    EncodedValue(b);
    ZeroIsZeroDigit();
  }

  lemma EncodedValue(n: nat)
    ensures Value(Encoded(n)) == if n == 0 then 52 else n
  {
    DigitsDecode(n);
    assert Value("0") == 62 * Value("0"[..0]) + 52 == 52;
  }

  lemma ZeroIsZeroDigit()
    ensures Encoded(0) == Encoded(52)
  {
    assert Digits(52) == Digits(0) + ['0'] == "0";
  }

  lemma {:induction false} DigitsLength(n: nat, k: nat)
    ensures |Digits(n)| <= k <==> n < Pow(62, k)
    decreases k
  {
    if n > 0 && k > 0 { DigitsLength(n / 62, k - 1); }
    if k == 0 && n > 0 { assert |Digits(n)| > 0; }
    if n == 0 { PowPositive(62, k); }
  }

  lemma {:induction false} PowPositive(b: nat, k: nat)
    requires b > 0
    ensures Pow(b, k) > 0
  {
    if k > 0 { PowPositive(b, k - 1); }
  }

  lemma {:induction false} PowAdd(b: nat, i: nat, j: nat)
    ensures Pow(b, i + j) == Pow(b, i) * Pow(b, j)
  {
    if i > 0 {
      PowAdd(b, i - 1, j);
      Associative(b, Pow(b, i - 1), Pow(b, j));
    }
  }

  lemma Associative(a: int, b: int, c: int)
    ensures a * (b * c) == (a * b) * c
  {
  }

  lemma {:induction false} BigEndianBound(bytes: seq<Octet>)
    ensures BigEndian(bytes) < Pow(256, |bytes|)
    decreases |bytes|
  {
    if bytes != [] { BigEndianBound(bytes[..|bytes| - 1]); }
  }

  lemma Powers62()
    ensures Pow(62, 2) == 3844
    ensures Pow(62, 4) == 14776336
    ensures Pow(62, 8) == 218340105584896
    ensures Pow(62, 16) == 47672401706823533450263330816
    ensures Pow(62, 32) == 2272657884496751345355241563627544170162852933518655225856
  {
    assert Pow(62, 1) == 62 * Pow(62, 0);
    PowAdd(62, 1, 1);
    PowAdd(62, 2, 2);
    PowAdd(62, 4, 4);
    PowAdd(62, 8, 8);
    PowAdd(62, 16, 16);
  }

  lemma Powers256()
    ensures Pow(256, 32) == 115792089237316195423570985008687907853269984665640564039457584007913129639936
  {
    assert Pow(256, 1) == 256 * Pow(256, 0);
    PowAdd(256, 1, 1);
    PowAdd(256, 2, 2);
    PowAdd(256, 4, 4);
    PowAdd(256, 8, 8);
    PowAdd(256, 16, 16);
  }

  /** 256 to the 32nd is below 62 to the 43rd. */
  lemma BodyFits()
    ensures Pow(256, 32) < Pow(62, 43)
  {
    Powers256();
    Powers62();
    PowAdd(62, 32, 11);
    PowAdd(62, 8, 3);
    assert Pow(62, 3) == 62 * Pow(62, 2);
  }

  lemma BodyLength(bytes: seq<Octet>)
    requires |bytes| == 32
    ensures 1 <= |Encoded(BigEndian(bytes))| <= 43
    ensures AllAlnum(Encoded(BigEndian(bytes)))
  {
    var n := BigEndian(bytes);
    BigEndianBound(bytes);
    BodyFits();
    DigitsLength(n, 43);
    DigitsDecode(n);
  }

  /// ### The printed checksum

  lemma {:induction false} ZerosAre(k: nat)
    ensures |Zeros(k)| == k && forall i: nat :: i < k ==> Zeros(k)[i] == '0'
  {
    if k > 0 { ZerosAre(k - 1); }
  }

  lemma ChecksumFits(crc: nat)
    requires crc < 0x1_0000_0000
    ensures |Digits(crc)| <= 6
  {
    Powers62();
    PowAdd(62, 4, 2);
    DigitsLength(crc, 6);
  }

  /** A printed checksum is always six characters of the alphabet. */
  lemma ChecksumIsSix(s: string)
    ensures |CrcText(s)| == 6 && AllAlnum(CrcText(s))
  {
    CrcBound(s);
    PaddedIsSix(Crc(s));
  }

  lemma PaddedIsSix(crc: nat)
    requires crc < 0x1_0000_0000
    ensures |Padded(crc)| == 6 && AllAlnum(Padded(crc))
  {
    ChecksumFits(crc);
    DigitsDecode(crc);
    PaddedText(Digits(crc), 6);
  }

  /** What printing '0' in place `k` adds to a number that does not reach that place: '0' is digit 52, not zero. */
  function Place(n: nat, power: nat): (r: nat) {
    if n < power then 52 * power else 0
  }

  /** What padding to six places adds to a number's value. */
  function Filler(n: nat): (r: nat) {
    Place(n, 1) + Place(n, 62) + Place(n, 3844) + Place(n, 238328) + Place(n, 14776336) + Place(n, 916132832)
  }

  lemma {:induction false} ValueOfFirst(c: char, s: string)
    ensures Value([c] + s) == Index(c) * Pow(62, |s|) + Value(s)
    decreases |s|
  {
    if s == "" {
      assert Value([c]) == 62 * Value([c][..0]) + Index(c);
      assert [c] + s == [c];
    } else {
      var s' := s[..|s| - 1];
      assert ([c] + s)[..|s|] == [c] + s';
      ValueOfFirst(c, s');
      Distributes(Index(c), Pow(62, |s'|), Value(s'));
    }
  }

  lemma Distributes(i: int, p: int, v: int)
    ensures 62 * (i * p + v) == i * (62 * p) + 62 * v
  {
  }

  lemma PadMore(s: string, k: nat)
    requires |s| < k
    ensures PadStart(s, k) == ['0'] + PadStart(s, k - 1)
  {
    if |s| == k - 1 { assert Zeros(1) == ['0'] + Zeros(0); }
  }

  lemma PadMoreValue(s: string, k: nat)
    requires |s| < k && |PadStart(s, k - 1)| == k - 1
    ensures Value(PadStart(s, k)) == 52 * Pow(62, k - 1) + Value(PadStart(s, k - 1))
  {
    PadMore(s, k);
    ValueOfFirst('0', PadStart(s, k - 1));
  }

  lemma {:induction false} PaddedText(s: string, k: nat)
    requires AllAlnum(s) && |s| <= k
    ensures |PadStart(s, k)| == k && AllAlnum(PadStart(s, k))
  {
    ZerosAre(k - |s|);
  }

  lemma OneMoreZero(s: string, k: nat, power: nat)
    requires AllAlnum(s) && k > 0 && Pow(62, k - 1) == power
    ensures Value(PadStart(s, k)) == Value(PadStart(s, k - 1)) + (if |s| < k then 52 * power else 0)
  {
    if |s| < k {
      PaddedText(s, k - 1);
      PadMoreValue(s, k);
    }
  }

  /** One more place: padding adds digit 52 there, unless the number reaches it. */
  lemma OnePlace(n: nat, k: nat, power: nat)
    requires k > 0 && Pow(62, k - 1) == power
    ensures Value(PadStart(Digits(n), k)) == Value(PadStart(Digits(n), k - 1)) + Place(n, power)
  {
    DigitsDecode(n);
    DigitsLength(n, k - 1);
    OneMoreZero(Digits(n), k, power);
  }

  lemma PaddedValue(n: nat)
    ensures Value(PadStart(Digits(n), 6)) == n + Filler(n)
  {
    DigitsDecode(n);
    OnePlace(n, 1, 1);
    OnePlace(n, 2, 62);
    OnePlace(n, 3, 3844);
    OnePlace(n, 4, 238328);
    OnePlace(n, 5, 14776336);
    OnePlace(n, 6, 916132832);
  }

  /** Exactly when two checksums are printed alike. */
  lemma PaddedSameIff(a: nat, b: nat)
    requires a < 0x1_0000_0000 && b < 0x1_0000_0000
    ensures Padded(a) == Padded(b) <==> a + Filler(a) == b + Filler(b)
  {
    ChecksumFits(a);
    ChecksumFits(b);
    PaddedIsSix(a);
    PaddedIsSix(b);
    PaddedValue(a);
    PaddedValue(b);
    if Value(Padded(a)) == Value(Padded(b)) { SameValue(Padded(a), Padded(b)); }
  }

  /** The text is not one-to-one: these two checksums are both printed "000000". */
  lemma PrintedAlike()
    ensures Padded(0) == Padded(780965692)
  {
    PaddedSameIff(0, 780965692);
  }

  /** A number of at least five digits shares its text with no other of at least five. */
  lemma PrintedApart(a: nat, b: nat)
    requires a < 0x1_0000_0000 && b < 0x1_0000_0000 && Padded(a) == Padded(b) && Padded(a)[1] != '0'
    ensures a == b
  {
    FiveDigits(a);
    FiveDigits(b);
    PaddedSameIff(a, b);
  }

  lemma FiveDigits(a: nat)
    requires a < 0x1_0000_0000 && |Padded(a)| > 1 && Padded(a)[1] != '0'
    ensures a >= 14776336
  {
    DigitsLength(a, 4);
    if |Digits(a)| <= 4 { ZerosAre(6 - |Digits(a)|); }
  }

  /// ## Keys

  function EnvName(env: Env): (r: string) {
    match env
    case Live => "live"
    case Test => "test"
  }

  function Head(env: Env, body: string): (r: string) {
    "agnt_" + EnvName(env) + "_" + body
  }

  function ExtractPrefix(plaintext: string): (r: string) {
    if |plaintext| <= PREFIX_LENGTH then plaintext else plaintext[..PREFIX_LENGTH]
  }

  function LastFour(s: string): (r: string) {
    if |s| <= 4 then s else s[|s| - 4..]
  }

  function Minted(env: Env, bytes: seq<Octet>): (r: MintedKey) {
    var body := Encoded(BigEndian(bytes));
    var head := Head(env, body);
    var plaintext := head + CrcText(head);
    MintedKey(plaintext, ExtractPrefix(plaintext), LastFour(body))
  }

  method MintApiKey(env: Env, bytes: seq<Octet>) returns (key: MintedKey)
    requires |bytes| == 32
    ensures key == Minted(env, bytes)
  {
    var body := Base62Encode(bytes);
    var head := Head(env, body);
    var checksum := Crc32Base62(head);
    key := MintedKey(head + checksum, ExtractPrefix(head + checksum), LastFour(body));
  }

  /** The form of a key: some environment, a body and six characters. */
  ghost predicate HasForm(p: string, env: Env, body: string, sum: string) {
    p == Head(env, body) + sum && body != "" && |sum| == 6 && AllAlnum(body) && AllAlnum(sum)
  }

  /** The same, by looking at fixed places only. */
  predicate LooksLikeKey(p: string) {
    |p| >= 17 && (p[..10] == "agnt_live_" || p[..10] == "agnt_test_") && AllAlnum(p[10..])
  }

  predicate ValidKeyFormat(p: string) {
    LooksLikeKey(p) && CrcText(p[..|p| - 6]) == p[|p| - 6..]
  }

  /** How the mode is read off a key. */
  predicate IsTestKey(p: string) {
    "agnt_test_" <= p
  }

  method IsValidKeyFormat(p: string) returns (ok: bool)
    ensures ok <==> exists env, body :: HasForm(p, env, body, CrcText(Head(env, body)))
  {
    ok := LooksLikeKey(p);
    if ok {
      var expected := Crc32Base62(p[..|p| - 6]);
      ok := expected == p[|p| - 6..];
    }
    ValidMeans(p);
  }

  lemma HeadLength(env: Env, body: string)
    ensures |Head(env, body)| == 10 + |body|
    ensures Head(env, body)[..10] == if env == Live then "agnt_live_" else "agnt_test_"
    ensures Head(env, body)[10..] == body
  {
  }

  lemma FormLooks(p: string, env: Env, body: string, sum: string)
    requires HasForm(p, env, body, sum)
    ensures LooksLikeKey(p) && p[..|p| - 6] == Head(env, body) && p[|p| - 6..] == sum
    ensures IsTestKey(p) <==> env == Test
  {
    HeadLength(env, body);
    assert p[..10] == Head(env, body)[..10];
    assert p[10..] == body + sum;
    assert IsTestKey(p) <==> p[..10] == "agnt_test_";
    assert "agnt_live_"[5] != "agnt_test_"[5];
  }

  lemma LooksHasForm(p: string)
    requires LooksLikeKey(p)
    ensures HasForm(p, if p[..10] == "agnt_live_" then Live else Test, p[10..|p| - 6], p[|p| - 6..])
  {
    var env := if p[..10] == "agnt_live_" then Live else Test;
    var body, sum := p[10..|p| - 6], p[|p| - 6..];
    HeadLength(env, body);
    assert p == p[..10] + body + sum;
    assert forall i: nat :: i < |body| ==> body[i] == p[10..][i];
    assert forall i: nat :: i < 6 ==> sum[i] == p[10..][|p| - 16 + i];
  }

  /** A valid key is a head of the right form followed by that head's checksum. */
  lemma ValidMeans(p: string)
    ensures ValidKeyFormat(p) <==> exists env, body :: HasForm(p, env, body, CrcText(Head(env, body)))
  {
    if ValidKeyFormat(p) {
      LooksHasForm(p);
      var env := if p[..10] == "agnt_live_" then Live else Test;
      FormLooks(p, env, p[10..|p| - 6], p[|p| - 6..]);
      assert HasForm(p, env, p[10..|p| - 6], CrcText(Head(env, p[10..|p| - 6])));
    }
    if env, body :| HasForm(p, env, body, CrcText(Head(env, body))) {
      FormLooks(p, env, body, CrcText(Head(env, body)));
    }
  }

  /** Minting and checking undo each other: a minted key is valid, and shows its environment and prefix. */
  lemma MintedIsValid(env: Env, bytes: seq<Octet>)
    requires |bytes| == 32
    ensures var p := Minted(env, bytes).plaintext;
            && ValidKeyFormat(p)
            && (IsTestKey(p) <==> env == Test)
            && p[..10] == (if env == Live then "agnt_live_" else "agnt_test_")
            && Minted(env, bytes).prefix == ExtractPrefix(p) == (if |p| < 18 then p else p[..18])
            && 17 <= |p| <= 59
            && Minted(env, bytes).last4 == p[if |p| < 20 then 10 else |p| - 10..|p| - 6]
  {
    var body := Encoded(BigEndian(bytes));
    BodyLength(bytes);
    ChecksumIsSix(Head(env, body));
    HeadLength(env, body);
    FormLooks(Minted(env, bytes).plaintext, env, body, CrcText(Head(env, body)));
  }

  /** Different random bodies give different keys, but for the bodies 0 and 52. */
  lemma MintedDiffer(env: Env, bytes: seq<Octet>, env': Env, bytes': seq<Octet>)
    requires |bytes| == 32 && |bytes'| == 32 && Minted(env, bytes).plaintext == Minted(env', bytes').plaintext
    ensures env == env'
    ensures var n, n' := BigEndian(bytes), BigEndian(bytes');
            n == n' || (n == 0 && n' == 52) || (n == 52 && n' == 0)
  {
    var body, body' := Encoded(BigEndian(bytes)), Encoded(BigEndian(bytes'));
    BodyLength(bytes);
    BodyLength(bytes');
    ChecksumIsSix(Head(env, body));
    ChecksumIsSix(Head(env', body'));
    FormLooks(Minted(env, bytes).plaintext, env, body, CrcText(Head(env, body)));
    FormLooks(Minted(env', bytes').plaintext, env', body', CrcText(Head(env', body')));
    HeadLength(env, body);
    HeadLength(env', body');
    EncodedSameIff(BigEndian(bytes), BigEndian(bytes'));
  }

  /** The first byte counts most: each further one multiplies its weight by 256. */
  lemma {:induction false} BigEndianFirst(first: Octet, rest: seq<Octet>)
    ensures BigEndian([first] + rest) == first * Pow(256, |rest|) + BigEndian(rest)
    decreases |rest|
  {
    var bytes := [first] + rest;
    if rest == [] {
      assert bytes[..0] == [];
    } else {
      var init := rest[..|rest| - 1];
      assert bytes[..|bytes| - 1] == [first] + init;
      BigEndianFirst(first, init);
      Weighs(first, Pow(256, |init|), BigEndian(init));
    }
  }

  lemma Weighs(i: int, p: int, v: int)
    ensures 256 * (i * p + v) == i * (256 * p) + 256 * v
  {
  }

  lemma {:induction false} SameNumber(a: seq<Octet>, b: seq<Octet>)
    requires |a| == |b| && BigEndian(a) == BigEndian(b)
    ensures a == b
    decreases |a|
  {
    if a != [] {
      var n := |a| - 1;
      SameNumber(a[..n], b[..n]);
      assert a == a[..n] + [a[n]] && b == b[..n] + [b[n]];
    }
  }

  /** Thirty-one zero bytes and one more. */
  function Tiny(last: Octet): (r: seq<Octet>) {
    seq(31, _ => 0) + [last]
  }

  lemma {:induction false} ZeroBytes(k: nat)
    ensures BigEndian(seq(k, _ => 0)) == 0
  {
    if k > 0 {
      assert seq(k, _ => 0 as Octet)[..k - 1] == seq(k - 1, _ => 0 as Octet);
      ZeroBytes(k - 1);
    }
  }

  lemma TinyNumber(last: Octet)
    ensures BigEndian(Tiny(last)) == last
  {
    ZeroBytes(31);
    assert Tiny(last)[..31] == seq(31, _ => 0 as Octet);
  }

  /** Exactly when two minted keys are the same text: one environment, and the same random bytes, but for
      the two draws whose bodies are both printed as "0". */
  lemma SameKeyIff(env: Env, bytes: seq<Octet>, env': Env, bytes': seq<Octet>)
    requires |bytes| == 32 && |bytes'| == 32
    ensures Minted(env, bytes).plaintext == Minted(env', bytes').plaintext <==>
      && env == env'
      && (bytes == bytes' || (bytes == Tiny(0) && bytes' == Tiny(52)) || (bytes == Tiny(52) && bytes' == Tiny(0)))
  {
    TinyNumber(0);
    TinyNumber(52);
    EncodedSameIff(BigEndian(bytes), BigEndian(bytes'));
    if Minted(env, bytes).plaintext == Minted(env', bytes').plaintext {
      MintedDiffer(env, bytes, env', bytes');
      if BigEndian(bytes) == BigEndian(bytes') { SameNumber(bytes, bytes'); }
      if BigEndian(bytes) == 0 { SameNumber(bytes, Tiny(0)); }
      if BigEndian(bytes) == 52 { SameNumber(bytes, Tiny(52)); }
      if BigEndian(bytes') == 0 { SameNumber(bytes', Tiny(0)); }
      if BigEndian(bytes') == 52 { SameNumber(bytes', Tiny(52)); }
    }
  }

  /// ## Typing errors

  lemma KeyIsBytes(p: string)
    requires LooksLikeKey(p)
    ensures ByteChars(p[..|p| - 6])
  {
    var head := p[..|p| - 6];
    forall i: nat | i < |head| ensures IsByte(head[i]) {
      if i < 10 { assert p[..10][i] == p[i]; } else { assert Alnum(p[10..][i - 10]); }
    }
  }

  /** A typing error inside four consecutive characters before the checksum always changes the CRC. */
  lemma TypoInHead(p: string, q: string, i: nat)
    requires LooksLikeKey(p) && LooksLikeKey(q) && p != q
    requires AgreeOutside(p, q, i) && i + 4 <= |p| - 6
    ensures Crc(p[..|p| - 6]) != Crc(q[..|q| - 6]) && p[|p| - 6..] == q[|q| - 6..]
  {
    var s, t := p[..|p| - 6], q[..|q| - 6];
    assert p[|p| - 6..] == q[|q| - 6..];
    assert p == s + p[|p| - 6..] && q == t + q[|q| - 6..];
    KeyIsBytes(p);
    KeyIsBytes(q);
    TypoChangesCrc(s, t, i);
  }

  lemma SameTextIff(s: string, t: string)
    ensures CrcText(s) == CrcText(t) <==> Crc(s) + Filler(Crc(s)) == Crc(t) + Filler(Crc(t))
  {
    CrcBound(s);
    CrcBound(t);
    PaddedSameIff(Crc(s), Crc(t));
  }

  /** Exactly when such an error goes unnoticed: the two different checksums happen to be printed alike. */
  lemma TypoUnnoticedIff(p: string, q: string, i: nat)
    requires ValidKeyFormat(p) && LooksLikeKey(q) && p != q
    requires AgreeOutside(p, q, i) && i + 4 <= |p| - 6
    ensures var a, b := Crc(p[..|p| - 6]), Crc(q[..|q| - 6]);
            a != b && (ValidKeyFormat(q) <==> a + Filler(a) == b + Filler(b))
  {
    TypoInHead(p, q, i);
    ValidWithSameChecksum(p, q);
  }

  lemma ValidWithSameChecksum(p: string, q: string)
    requires ValidKeyFormat(p) && LooksLikeKey(q) && p[|p| - 6..] == q[|q| - 6..]
    ensures var a, b := Crc(p[..|p| - 6]), Crc(q[..|q| - 6]);
            ValidKeyFormat(q) <==> a + Filler(a) == b + Filler(b)
  {
    SameTextIff(p[..|p| - 6], q[..|q| - 6]);
  }

  lemma SameTextSameCrc(s: string, t: string)
    requires CrcText(s) == CrcText(t) && |CrcText(s)| == 6 && CrcText(s)[1] != '0'
    ensures Crc(s) == Crc(t)
  {
    CrcBound(s);
    CrcBound(t);
    PrintedApart(Crc(s), Crc(t));
  }

  lemma SameChecksum(p: string, q: string)
    requires ValidKeyFormat(p) && ValidKeyFormat(q) && p[|p| - 6..] == q[|q| - 6..] && p[|p| - 5] != '0'
    ensures Crc(p[..|p| - 6]) == Crc(q[..|q| - 6])
  {
    assert p[|p| - 6..][1] == p[|p| - 5];
    SameTextSameCrc(p[..|p| - 6], q[..|q| - 6]);
  }

  /** Such an error is caught for certain when the checksum's second character is not '0'. */
  lemma TypoIsCaught(p: string, q: string, i: nat)
    requires ValidKeyFormat(p) && p[|p| - 5] != '0' && p != q
    requires AgreeOutside(p, q, i) && i + 4 <= |p| - 6
    ensures !ValidKeyFormat(q)
  {
    if ValidKeyFormat(q) {
      TypoInHead(p, q, i);
      SameChecksum(p, q);
    }
  }

  /** A head has exactly one valid checksum, so any change within the checksum is caught. */
  lemma OneChecksumPerHead(p: string, q: string)
    requires ValidKeyFormat(p) && ValidKeyFormat(q) && p[..|p| - 6] == q[..|q| - 6]
    ensures p == q
  {
    assert p == p[..|p| - 6] + p[|p| - 6..];
    assert q == q[..|q| - 6] + q[|q| - 6..];
  }
}
