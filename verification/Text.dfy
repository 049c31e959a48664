/** The string operations of Python that the models share. */
module Text {
  import opened Wrappers

  /** str.isspace for one character. */
  predicate IsSpace(c: char) {
    var n := c as int;
    || 0x09 <= n <= 0x0d || 0x1c <= n <= 0x20 || n == 0x85 || n == 0xa0 || n == 0x1680
    || 0x2000 <= n <= 0x200a || n == 0x2028 || n == 0x2029 || n == 0x202f || n == 0x205f || n == 0x3000
  }

  function StripLeft(s: string): (r: string)
    ensures |r| <= |s| && (|r| == |s| ==> r == s)
    ensures r != "" ==> !IsSpace(r[0])
    ensures |r| < |s| ==> IsSpace(s[0])
  {
    if s != "" && IsSpace(s[0]) then StripLeft(s[1..]) else s
  }

  function StripRight(s: string): (r: string)
    ensures |r| <= |s| && (|r| == |s| ==> r == s)
    ensures r != "" ==> r[0] == s[0]
    ensures r != "" ==> !IsSpace(r[|r| - 1])
    ensures |r| < |s| ==> IsSpace(s[|s| - 1])
  {
    if s != "" && IsSpace(s[|s| - 1]) then StripRight(s[..|s| - 1]) else s
  }

  /** str.strip() */
  function Strip(s: string): (r: string)
    ensures |r| <= |s|
    ensures r != "" ==> !IsSpace(r[0]) && !IsSpace(r[|r| - 1])
  {
    StripRight(StripLeft(s))
  }

  predicate Trimmed(s: string) {
    s == "" || (!IsSpace(s[0]) && !IsSpace(s[|s| - 1]))
  }

  /** Stripping changes nothing exactly when there is no space at either end. */
  lemma StripFixed(s: string)
    ensures Strip(s) == s <==> Trimmed(s)
  {
    if Trimmed(s) {
      assert StripLeft(s) == s && StripRight(s) == s;
    }
  }

  predicate AllSpace(s: string) {
    forall i | 0 <= i < |s| :: IsSpace(s[i])
  }

  /** Stripping takes the spaces at both ends and nothing else. */
  lemma StripTakesSpaces(s: string) returns (before: string, after: string)
    ensures s == before + Strip(s) + after && AllSpace(before) && AllSpace(after) && Trimmed(Strip(s))
  {
    hide IsSpace;
    before := LeftSpaces(s);
    after := RightSpaces(StripLeft(s));
  }

  lemma {:induction false} LeftSpaces(s: string) returns (before: string)
    ensures s == before + StripLeft(s) && AllSpace(before)
  {
    hide IsSpace;
    before := "";
    if s != "" && IsSpace(s[0]) {
      before := LeftSpaces(s[1..]);
      before := [s[0]] + before;
    }
  }

  lemma {:induction false} RightSpaces(s: string) returns (after: string)
    ensures s == StripRight(s) + after && AllSpace(after)
  {
    hide IsSpace;
    after := "";
    if s != "" && IsSpace(s[|s| - 1]) {
      after := RightSpaces(s[..|s| - 1]);
      after := after + [s[|s| - 1]];
    }
  }

  predicate StartsWith(s: string, p: string) {
    |p| <= |s| && s[..|p|] == p
  }

  predicate OccursAt(s: string, t: string, i: nat) {
    i + |t| <= |s| && s[i..i + |t|] == t
  }

  /** The first place where t occurs in s. */
  function FirstIndex(s: string, t: string): (r: Option<nat>)
    ensures r.Some? ==> OccursAt(s, t, r.value) && forall k: nat | k < r.value :: !OccursAt(s, t, k)
    ensures r.None? ==> forall k: nat :: !OccursAt(s, t, k)
  {
    FirstIndexFrom(s, t, 0)
  }

  function FirstIndexFrom(s: string, t: string, i: nat): (r: Option<nat>)
    requires i <= |s| && forall k: nat | k < i :: !OccursAt(s, t, k)
    ensures r.Some? ==> OccursAt(s, t, r.value) && forall k: nat | k < r.value :: !OccursAt(s, t, k)
    ensures r.None? ==> forall k: nat :: !OccursAt(s, t, k)
    decreases |s| - i
  {
    if OccursAt(s, t, i) then Some(i)
    else if i == |s| then None
    else FirstIndexFrom(s, t, i + 1)
  }

  predicate Contains(s: string, t: string) {
    FirstIndex(s, t).Some?
  }

  /** str.lower on the ASCII letters. */
  function Lower(s: string): string {
    seq(|s|, i requires 0 <= i < |s| => if 'A' <= s[i] <= 'Z' then (s[i] as int + 32) as char else s[i])
  }

  /** The same letter, but for its case. */
  predicate SameLetter(x: char, y: char) {
    || x == y
    || ('A' <= x <= 'Z' && y as int - x as int == 'a' as int - 'A' as int)
    || ('A' <= y <= 'Z' && x as int - y as int == 'a' as int - 'A' as int)
  }

  /** Lowering forgets the case of the ASCII letters and nothing else. */
  lemma LowerForgetsCase(s: string, t: string)
    ensures Lower(s) == Lower(t) <==> |s| == |t| && forall i | 0 <= i < |s| :: SameLetter(s[i], t[i])
    ensures forall i | 0 <= i < |s| :: !('A' <= Lower(s)[i] <= 'Z')
  {
    if Lower(s) == Lower(t) {
      forall i | 0 <= i < |s| ensures SameLetter(s[i], t[i]) {
        assert Lower(s)[i] == Lower(t)[i];
      }
    }
  }

  /** None of the lines holds a line break. */
  predicate SingleLines(lines: seq<string>) {
    forall i | 0 <= i < |lines| :: '\n' !in lines[i]
  }

  lemma SingleAppend(a: seq<string>, b: seq<string>)
    requires SingleLines(a) && SingleLines(b)
    ensures SingleLines(a + b)
  {
  }

  lemma FirstBreak(line: string, rest: string)
    requires '\n' !in line
    ensures FirstIndex(line + "\n" + rest, "\n") == Some(|line|)
  {
    var text := line + "\n" + rest;
    assert OccursAt(text, "\n", |line|);
    forall k: nat | k < |line| ensures !OccursAt(text, "\n", k) {
      assert text[k..k + 1][0] == line[k];
    }
  }

  // ---------- Decimal numbers ----------

  predicate IsDigit(c: char) {
    '0' <= c <= '9'
  }

  predicate IsDigits(s: string) {
    forall i | 0 <= i < |s| :: IsDigit(s[i])
  }

  function Value(digits: string): nat
    requires IsDigits(digits)
  {
    if digits == "" then 0
    else Value(digits[..|digits| - 1]) * 10 + (digits[|digits| - 1] as nat - '0' as nat)
  }

  function Decimal(n: nat): (r: string)
    ensures r != "" && IsDigits(r)
  {
    (if n < 10 then "" else Decimal(n / 10)) + ['0' + (n % 10) as char]
  }

  function PowerOfTen(n: nat): nat {
    if n == 0 then 1 else 10 * PowerOfTen(n - 1)
  }

  /** Each place counts ten times the next. */
  lemma {:induction false} ValueOfPlaces(high: string, low: string)
    requires IsDigits(high) && IsDigits(low)
    ensures IsDigits(high + low) && Value(high + low) == Value(high) * PowerOfTen(|low|) + Value(low)
    ensures |low| == 1 ==> Value(low) == low[0] as nat - '0' as nat
    decreases |low|
  {
    if low == "" {
      assert high + low == high;
    } else {
      var n := |low| - 1;
      ValueOfPlaces(high, low[..n]);
      assert (high + low)[..|high| + n] == high + low[..n];
      assert (high + low)[|high| + n] == low[n];
      Tenfold(Value(high), PowerOfTen(n), Value(low[..n]));
    }
  }

  lemma Tenfold(v: nat, p: nat, w: nat)
    ensures (v * p + w) * 10 == v * (10 * p) + w * 10
  {
  }

  lemma {:induction false} ValueOfDecimal(n: nat)
    ensures Value(Decimal(n)) == n
  {
    var r := Decimal(n);
    var digit := '0' + (n % 10) as char;
    assert r[|r| - 1] == digit;
    if n < 10 {
      assert r[..|r| - 1] == "" && Value("") == 0;
    } else {
      ValueOfDecimal(n / 10);
      assert r[..|r| - 1] == Decimal(n / 10);
    }
  }

  function DigitCount(s: string): (n: nat)
    ensures n <= |s| && IsDigits(s[..n]) && (n < |s| ==> !IsDigit(s[n]))
  {
    if s == "" || !IsDigit(s[0]) then 0
    else
      var n := 1 + DigitCount(s[1..]);
      assert s[..n] == [s[0]] + s[1..][..n - 1];
      n
  }

  lemma DigitsRead(digits: string, rest: string)
    requires IsDigits(digits) && (rest != "" ==> !IsDigit(rest[0]))
    ensures DigitCount(digits + rest) == |digits|
  {
    var s := digits + rest;
    assert s[..|digits|] == digits;
    assert rest != "" ==> s[|digits|] == rest[0];
  }
}
