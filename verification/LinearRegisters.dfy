/**
 * Registers that are fed characters through a linear step, over any commutative
 * group in which every element is its own inverse, such as words under exclusive or.
 *
 * When the step maps only zero to zero and takes a shifted-up word back down, two
 * strings that differ inside four consecutive characters leave different registers.
 */
module LinearRegisters {

  /** `fits(w, n)` says that word `w` needs at most `n` characters' room. */
  datatype Machine<!T(!new)> = Machine(
    zero: T, xor: (T, T) -> T, up: T -> T, fits: (T, nat) -> bool,
    step: T -> T, code: char -> T)

  function Feed<T(!new)>(m: Machine<T>, reg: T, c: char): (r: T) {
    m.step(m.xor(reg, m.code(c)))
  }

  function Register<T(!new)>(m: Machine<T>, reg: T, s: string): (r: T) {
    if s == "" then reg else Feed(m, Register(m, reg, s[..|s| - 1]), s[|s| - 1])
  }

  /// ## The laws

  ghost predicate IsGroup<T(!new)>(m: Machine<T>) {
    forall a, b, c :: GroupLaws(m, a, b, c)
  }

  ghost predicate GroupLaws<T(!new)>(m: Machine<T>, a: T, b: T, c: T) {
    && m.xor(a, b) == m.xor(b, a)
    && m.xor(m.xor(a, b), c) == m.xor(a, m.xor(b, c))
    && m.xor(a, m.zero) == a
    && m.xor(a, a) == m.zero
  }

  ghost predicate IsLinear<T(!new)>(m: Machine<T>, f: T -> T) {
    forall a, b :: Additive(m, f, a, b)
  }

  ghost predicate Additive<T(!new)>(m: Machine<T>, f: T -> T, a: T, b: T) {
    f(m.xor(a, b)) == m.xor(f(a), f(b))
  }

  ghost predicate OnlyZeroToZero<T(!new)>(m: Machine<T>) {
    forall a :: m.step(a) == m.zero ==> a == m.zero
  }

  ghost predicate OneToOne<T(!new)>(m: Machine<T>) {
    IsGroup(m) && IsLinear(m, m.step) && OnlyZeroToZero(m)
  }

  /** A word of three characters, shifted up, is brought back by one step. */
  ghost predicate MovesDown<T(!new)>(m: Machine<T>) {
    forall w :: m.fits(w, 3) ==> m.step(m.up(w)) == w
  }

  ghost predicate HasRoom<T(!new)>(m: Machine<T>) {
    m.fits(m.zero, 0) && forall a, w, n: nat :: RoomLaws(m, a, w, n)
  }

  ghost predicate RoomLaws<T(!new)>(m: Machine<T>, a: T, w: T, n: nat) {
    && (n <= 3 && m.fits(w, n) ==> m.fits(w, 3))
    && (m.fits(a, 3) && m.fits(w, 3) ==> m.fits(m.xor(a, w), 3))
    && (n < 3 && m.fits(a, 1) && m.fits(w, n) ==> m.fits(m.xor(a, m.up(w)), n + 1))
  }

  /** A character and what is shifted above it can be told apart. */
  ghost predicate Separates<T(!new)>(m: Machine<T>) {
    forall a, b, v, w :: Separate(m, a, b, v, w)
  }

  ghost predicate Separate<T(!new)>(m: Machine<T>, a: T, b: T, v: T, w: T) {
    m.fits(a, 1) && m.fits(b, 1) && m.fits(v, 3) && m.fits(w, 3) && m.xor(a, m.up(v)) == m.xor(b, m.up(w))
    ==> a == b && v == w
  }

  ghost predicate CodesBytes<T(!new)>(m: Machine<T>) {
    && (forall c :: IsByte(c) ==> m.fits(m.code(c), 1))
    && (forall c, d :: IsByte(c) && IsByte(d) && m.code(c) == m.code(d) ==> c == d)
  }

  predicate IsByte(c: char) { c as int < 256 }

  ghost predicate Lawful<T(!new)>(m: Machine<T>) {
    && OneToOne(m) && IsLinear(m, m.up) && MovesDown(m)
    && HasRoom(m) && Separates(m) && CodesBytes(m)
  }

  lemma LawfulFromLaws<T(!new)>(m: Machine<T>)
    requires OneToOne(m) && IsLinear(m, m.up) && MovesDown(m)
    requires HasRoom(m) && Separates(m) && CodesBytes(m)
    ensures Lawful(m)
  {
  }

  lemma AdditiveFrom<T(!new)>(m: Machine<T>, f: T -> T, a: T, b: T, sum: T, image: T)
    requires m.xor(a, b) == sum && f(sum) == image && m.xor(f(a), f(b)) == image
    ensures Additive(m, f, a, b)
  {
  }

  /// ## The group

  lemma Cancels<T(!new)>(m: Machine<T>, a: T, b: T)
    requires IsGroup(m)
    ensures m.xor(a, b) == m.zero <==> a == b
    ensures m.xor(m.xor(a, b), b) == a
  {
    assert GroupLaws(m, a, b, b);
    assert GroupLaws(m, b, m.zero, b);
  }

  lemma Pairs<T(!new)>(m: Machine<T>, a: T, b: T, c: T, d: T)
    requires IsGroup(m)
    ensures m.xor(m.xor(a, b), m.xor(c, d)) == m.xor(m.xor(a, c), m.xor(b, d))
  {
    assert GroupLaws(m, a, b, m.xor(c, d));
    assert GroupLaws(m, b, c, d);
    assert GroupLaws(m, c, b, d);
    assert GroupLaws(m, a, c, m.xor(b, d));
  }

  /** A linear step that sends only zero to zero is one-to-one. */
  lemma StepInjective<T(!new)>(m: Machine<T>, a: T, b: T)
    requires OneToOne(m) && m.step(a) == m.step(b)
    ensures a == b
  {
    Cancels(m, m.step(a), m.step(b));
    assert Additive(m, m.step, a, b);
    Cancels(m, a, b);
  }

  /// ## Registers

  lemma {:induction false} RegisterConcat<T(!new)>(m: Machine<T>, reg: T, a: string, b: string)
    ensures Register(m, reg, a + b) == Register(m, Register(m, reg, a), b)
    decreases |b|
  {
    if b == "" {
      assert a + b == a;
    } else {
      assert (a + b)[..|a + b| - 1] == a + b[..|b| - 1];
      RegisterConcat(m, reg, a, b[..|b| - 1]);
    }
  }

  lemma RegisterFirst<T(!new)>(m: Machine<T>, reg: T, s: string)
    requires s != ""
    ensures Register(m, reg, s) == Register(m, Feed(m, reg, s[0]), s[1..])
  {
    assert s == s[..1] + s[1..];
    RegisterConcat(m, reg, s[..1], s[1..]);
    assert s[..1][..0] == "";
    assert Register(m, reg, s[..1]) == Feed(m, Register(m, reg, ""), s[0]);
  }

  /** The same characters never make two registers meet. */
  lemma {:induction false} SameSuffix<T(!new)>(m: Machine<T>, r: T, q: T, s: string)
    requires OneToOne(m) && Register(m, r, s) == Register(m, q, s)
    ensures r == q
    decreases |s|
  {
    if s != "" {
      var rest := s[..|s| - 1];
      var c := m.code(s[|s| - 1]);
      StepInjective(m, m.xor(Register(m, r, rest), c), m.xor(Register(m, q, rest), c));
      Cancels(m, Register(m, r, rest), c);
      Cancels(m, Register(m, q, rest), c);
      SameSuffix(m, r, q, rest);
    }
  }

  predicate ByteChars(s: string) {
    forall i: nat :: i < |s| ==> IsByte(s[i])
  }

  /** Up to four characters, first one lowest. */
  function Word<T(!new)>(m: Machine<T>, s: string): (r: T) {
    if s == "" then m.zero else m.xor(m.code(s[0]), m.up(Word(m, s[1..])))
  }

  lemma JoinFits<T(!new)>(m: Machine<T>, a: T, w: T, n: nat)
    requires HasRoom(m) && n < 3 && m.fits(a, 1) && m.fits(w, n)
    ensures m.fits(m.xor(a, m.up(w)), n + 1)
  {
    assert RoomLaws(m, a, w, n);
  }

  lemma {:induction false} WordFits<T(!new)>(m: Machine<T>, s: string)
    requires HasRoom(m) && CodesBytes(m) && |s| <= 3 && ByteChars(s)
    ensures m.fits(Word(m, s), |s|)
    decreases |s|
  {
    if s != "" {
      WordFits(m, s[1..]);
      assert m.fits(m.code(s[0]), 1);
      JoinFits(m, m.code(s[0]), Word(m, s[1..]), |s| - 1);
    }
  }

  lemma WordFitsThree<T(!new)>(m: Machine<T>, s: string)
    requires HasRoom(m) && CodesBytes(m) && |s| <= 3 && ByteChars(s)
    ensures m.fits(Word(m, s), 3)
  {
    WordFits(m, s);
    assert RoomLaws(m, m.zero, Word(m, s), |s|);
  }

  /** A word of up to four characters gives back its first character and the rest. */
  lemma WordSplits<T(!new)>(m: Machine<T>, u: string, v: string)
    requires HasRoom(m) && CodesBytes(m) && Separates(m)
    requires 0 < |u| == |v| <= 4 && ByteChars(u) && ByteChars(v) && Word(m, u) == Word(m, v)
    ensures u[0] == v[0] && Word(m, u[1..]) == Word(m, v[1..])
  {
    WordFitsThree(m, u[1..]);
    WordFitsThree(m, v[1..]);
    assert m.fits(m.code(u[0]), 1) && m.fits(m.code(v[0]), 1);
    assert Separate(m, m.code(u[0]), m.code(v[0]), Word(m, u[1..]), Word(m, v[1..]));
  }

  lemma {:induction false} WordInjective<T(!new)>(m: Machine<T>, u: string, v: string)
    requires HasRoom(m) && CodesBytes(m) && Separates(m)
    requires |u| == |v| <= 4 && ByteChars(u) && ByteChars(v) && Word(m, u) == Word(m, v)
    ensures u == v
    decreases |u|
  {
    if u != "" {
      WordSplits(m, u, v);
      WordInjective(m, u[1..], v[1..]);
      assert u == [u[0]] + u[1..] && v == [v[0]] + v[1..];
    }
  }

  /** One character back: what two registers' difference was before it, if it is `w` after it. */
  lemma OneBack<T(!new)>(m: Machine<T>, r: T, q: T, c: T, d: T, w: T)
    requires OneToOne(m) && MovesDown(m) && m.fits(w, 3) && m.xor(m.step(m.xor(r, c)), m.step(m.xor(q, d))) == w
    ensures m.xor(r, q) == m.xor(m.xor(c, d), m.up(w))
  {
    var sum := m.xor(m.xor(r, c), m.xor(q, d));
    assert Additive(m, m.step, m.xor(r, c), m.xor(q, d));
    assert m.step(sum) == w == m.step(m.up(w));
    StepInjective(m, sum, m.up(w));
    Pairs(m, r, c, q, d);
    Cancels(m, m.xor(r, q), m.xor(c, d));
    assert GroupLaws(m, m.up(w), m.xor(c, d), m.zero);
  }

  /** The same with the difference after it split in two words. */
  lemma OneBackOfWords<T(!new)>(m: Machine<T>, r: T, q: T, c: T, d: T, x: T, y: T)
    requires OneToOne(m) && MovesDown(m) && IsLinear(m, m.up) && HasRoom(m) && m.fits(x, 3) && m.fits(y, 3)
    requires m.xor(m.step(m.xor(r, c)), m.step(m.xor(q, d))) == m.xor(x, y)
    ensures m.xor(r, q) == m.xor(m.xor(c, m.up(x)), m.xor(d, m.up(y)))
  {
    assert RoomLaws(m, x, y, 3);
    OneBack(m, r, q, c, d, m.xor(x, y));
    assert Additive(m, m.up, x, y);
    Pairs(m, c, d, m.up(x), m.up(y));
  }

  /** Registers that meet after up to four characters differed by exactly those characters before. */
  lemma {:induction false} MeetAfter<T(!new)>(m: Machine<T>, r: T, q: T, u: string, v: string)
    requires Lawful(m) && |u| == |v| <= 4 && ByteChars(u) && ByteChars(v)
    requires Register(m, r, u) == Register(m, q, v)
    ensures m.xor(r, q) == m.xor(Word(m, u), Word(m, v))
    decreases |u|
  {
    if u == "" {
      Cancels(m, r, q);
      Cancels(m, m.zero, m.zero);
    } else {
      RegisterFirst(m, r, u);
      RegisterFirst(m, q, v);
      MeetAfter(m, Feed(m, r, u[0]), Feed(m, q, v[0]), u[1..], v[1..]);
      WordFitsThree(m, u[1..]);
      WordFitsThree(m, v[1..]);
      OneBackOfWords(m, r, q, m.code(u[0]), m.code(v[0]), Word(m, u[1..]), Word(m, v[1..]));
    }
  }

  /** Up to four consecutive byte characters replaced by different ones leave a different register. */
  lemma BurstMovesRegister<T(!new)>(m: Machine<T>, reg: T, p: string, u: string, v: string, q: string)
    requires Lawful(m) && |u| == |v| <= 4 && ByteChars(u) && ByteChars(v) && u != v
    ensures Register(m, reg, p + u + q) != Register(m, reg, p + v + q)
  {
    if Register(m, reg, p + u + q) == Register(m, reg, p + v + q) {
      RegisterConcat(m, reg, p + u, q);
      RegisterConcat(m, reg, p + v, q);
      SameSuffix(m, Register(m, reg, p + u), Register(m, reg, p + v), q);
      RegisterConcat(m, reg, p, u);
      RegisterConcat(m, reg, p, v);
      var r := Register(m, reg, p);
      MeetAfter(m, r, r, u, v);
      Cancels(m, r, r);
      Cancels(m, Word(m, u), Word(m, v));
      WordInjective(m, u, v);
    }
  }

  /** Strings `s` and `t` agree outside the four characters from position `i` on. */
  predicate AgreeOutside(s: string, t: string, i: nat) {
    |s| == |t| && forall k: nat :: k < |s| && (k < i || i + 4 <= k) ==> s[k] == t[k]
  }

  lemma Parts(s: string, lo: nat, hi: nat)
    requires lo <= hi <= |s|
    ensures s == s[..lo] + s[lo..hi] + s[hi..]
  {
  }

  lemma TypoMovesRegister<T(!new)>(m: Machine<T>, reg: T, s: string, t: string, i: nat)
    requires Lawful(m) && AgreeOutside(s, t, i) && s != t && ByteChars(s) && ByteChars(t)
    ensures Register(m, reg, s) != Register(m, reg, t)
  {
    var lo := if i < |s| then i else |s|;
    var hi := if i + 4 < |s| then i + 4 else |s|;
    assert s[..lo] == t[..lo];
    assert s[hi..] == t[hi..];
    Parts(s, lo, hi);
    Parts(t, lo, hi);
    BurstMovesRegister(m, reg, s[..lo], s[lo..hi], t[lo..hi], s[hi..]);
  }

  /// ### Repeated steps

  function Iterate<T>(f: T -> T, x: T, n: nat): (r: T) {
    if n == 0 then x else f(Iterate(f, x, n - 1))
  }

  lemma {:induction false} IterateAdditive<T(!new)>(m: Machine<T>, f: T -> T, a: T, b: T, n: nat)
    requires IsLinear(m, f)
    ensures Iterate(f, m.xor(a, b), n) == m.xor(Iterate(f, a, n), Iterate(f, b, n))
  {
    if n > 0 {
      IterateAdditive(m, f, a, b, n - 1);
      assert Additive(m, f, Iterate(f, a, n - 1), Iterate(f, b, n - 1));
    }
  }

  lemma IterateIsLinear<T(!new)>(m: Machine<T>, f: T -> T, g: T -> T, n: nat)
    requires IsLinear(m, f) && forall x :: g(x) == Iterate(f, x, n)
    ensures IsLinear(m, g)
  {
    forall a, b ensures Additive(m, g, a, b) { IterateAdditive(m, f, a, b, n); }
  }

  lemma {:induction false} IterateKeepsNonZero<T(!new)>(f: T -> T, zero: T, a: T, n: nat)
    requires forall a :: f(a) == zero ==> a == zero
    requires Iterate(f, a, n) == zero
    ensures a == zero
  {
    if n > 0 { IterateKeepsNonZero(f, zero, a, n - 1); }
  }
}
