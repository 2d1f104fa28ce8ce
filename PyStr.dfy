/** The Python string built-ins the annotation parser relies on:
    `str.isspace`, `str.strip()`, `str.split(' ')`, `' '.join` and `int(str)`,
    together with the decimal rendering of a natural number (`str(k)`). */
module PyStr {
  import opened Wrappers

  /** Python's `str.isspace` for one character: the ASCII controls
      \t \n \v \f \r, the separators \x1c-\x1f, the space, and the Unicode
      space characters (U+0085, U+00A0, U+1680, U+2000-U+200A, U+2028,
      U+2029, U+202F, U+205F, U+3000). */
  predicate IsSpace(c: char) {
    var n := c as int;
    (9 <= n <= 13) || (0x1C <= n <= 0x20) || n == 0x85 || n == 0xA0 || n == 0x1680
    || (0x2000 <= n <= 0x200A) || n == 0x2028 || n == 0x2029 || n == 0x202F
    || n == 0x205F || n == 0x3000
  }

  /** No whitespace at either end: what `strip()` leaves. */
  predicate Trimmed(s: string) {
    s == [] || (!IsSpace(s[0]) && !IsSpace(s[|s| - 1]))
  }

  /** `s.lstrip()`: drops the leading whitespace; what is left does not
      start with whitespace (`LStripSpec` states the rest). */
  function LStrip(s: string): (r: string)
    ensures |r| <= |s|
    ensures r != [] ==> !IsSpace(r[0])
    decreases |s|
  {
    if s != [] && IsSpace(s[0]) then LStrip(s[1..]) else s
  }

  /** What `lstrip()` leaves is a suffix of `s`, and all it cuts off is whitespace. */
  lemma {:induction false} LStripSpec(s: string)
    ensures LStrip(s) == s[|s| - |LStrip(s)|..]
    ensures forall k :: 0 <= k < |s| - |LStrip(s)| ==> IsSpace(s[k])
    decreases |s|
  {
    if s != [] && IsSpace(s[0]) {
      LStripSpec(s[1..]);
      assert forall k :: 1 <= k < |s| ==> s[1..][k - 1] == s[k];
    }
  }

  /** `s.rstrip()`: drops the trailing whitespace; what is left does not
      end with whitespace (`RStripSpec` states the rest). */
  function RStrip(s: string): (r: string)
    ensures |r| <= |s| && (r != [] ==> r[0] == s[0])
    ensures r != [] ==> !IsSpace(r[|r| - 1])
    decreases |s|
  {
    if s != [] && IsSpace(s[|s| - 1]) then RStrip(s[..|s| - 1]) else s
  }

  /** What `rstrip()` leaves is a prefix of `s`, and all it cuts off is whitespace. */
  lemma {:induction false} RStripSpec(s: string)
    ensures RStrip(s) == s[..|RStrip(s)|]
    ensures forall k :: |RStrip(s)| <= k < |s| ==> IsSpace(s[k])
    decreases |s|
  {
    if s != [] && IsSpace(s[|s| - 1]) {
      RStripSpec(s[..|s| - 1]);
    }
  }

  /** `s.strip()`. */
  function Strip(s: string): (r: string)
    ensures Trimmed(r)
  {
    RStrip(LStrip(s))
  }

  /** `strip()` removes whitespace from the two ends of `s` and nothing else:
      the result is the piece of `s` that starts after the leading whitespace,
      and only whitespace follows it. */
  lemma StripSlice(s: string)
    ensures var i := |s| - |LStrip(s)|;
      i + |Strip(s)| <= |s| && Strip(s) == s[i..i + |Strip(s)|]
      && (forall k :: 0 <= k < i ==> IsSpace(s[k]))
      && (forall k :: i + |Strip(s)| <= k < |s| ==> IsSpace(s[k]))
  {
    var l := LStrip(s);
    LStripSpec(s);
    RStripSpec(l);
    SliceOfSuffix(s, l, RStrip(l));
  }

  lemma SliceOfSuffix(s: string, l: string, r: string)
    requires |l| <= |s| && l == s[|s| - |l|..]
    requires |r| <= |l| && r == l[..|r|]
    requires forall k :: |r| <= k < |l| ==> IsSpace(l[k])
    ensures var i := |s| - |l|;
      r == s[i..i + |r|] && forall k :: i + |r| <= k < |s| ==> IsSpace(s[k])
  {
    var i := |s| - |l|;
    forall k | i + |r| <= k < |s| ensures IsSpace(s[k]) {
      assert s[k] == l[k - i];
    }
  }

  /** A string without whitespace at its ends is left as it is. */
  lemma StripTrimmed(s: string)
    requires Trimmed(s)
    ensures Strip(s) == s
  {
  }

  /** Stripping twice is stripping once. */
  lemma StripIdempotent(s: string)
    ensures Strip(Strip(s)) == Strip(s)
  {
    StripTrimmed(Strip(s));
  }

  /** Whitespace added around a string does not change what `strip()` gives. */
  lemma {:induction false} StripPadded(w1: string, s: string, w2: string)
    requires forall k :: 0 <= k < |w1| ==> IsSpace(w1[k])
    requires forall k :: 0 <= k < |w2| ==> IsSpace(w2[k])
    ensures Strip(w1 + s + w2) == Strip(s)
  {
    assert w1 + s + w2 == w1 + (s + w2);
    LStripPadded(w1, s + w2);
    var l := LStrip(s);
    if l != [] {
      LStripAppend(s, w2);
      RStripPadded(l, w2);
    } else {
      LStripSpec(s);
      LStripPadded(w2, []);
      assert w2 + [] == w2;
      forall k | 0 <= k < |s + w2| ensures IsSpace((s + w2)[k]) {
        if k >= |s| {
          assert (s + w2)[k] == w2[k - |s|];
        }
      }
      LStripPadded(s + w2, []);
      assert s + w2 + [] == s + w2;
    }
  }

  lemma {:induction false} LStripPadded(w: string, s: string)
    requires forall k :: 0 <= k < |w| ==> IsSpace(w[k])
    ensures LStrip(w + s) == LStrip(s)
    decreases |w|
  {
    if w != [] {
      assert (w + s)[0] == w[0];
      assert (w + s)[1..] == w[1..] + s;
      assert forall k :: 0 <= k < |w[1..]| ==> w[1..][k] == w[k + 1];
      LStripPadded(w[1..], s);
    } else {
      assert w + s == s;
    }
  }

  lemma {:induction false} LStripAppend(s: string, t: string)
    requires LStrip(s) != []
    ensures LStrip(s + t) == LStrip(s) + t
    decreases |s|
  {
    assert (s + t)[0] == s[0];
    if IsSpace(s[0]) {
      assert (s + t)[1..] == s[1..] + t;
      LStripAppend(s[1..], t);
    }
  }

  lemma {:induction false} RStripPadded(s: string, w: string)
    requires forall k :: 0 <= k < |w| ==> IsSpace(w[k])
    ensures RStrip(s + w) == RStrip(s)
    decreases |w|
  {
    if w != [] {
      assert (s + w)[|s + w| - 1] == w[|w| - 1];
      assert (s + w)[..|s + w| - 1] == s + w[..|w| - 1];
      assert forall k :: 0 <= k < |w[..|w| - 1]| ==> w[..|w| - 1][k] == w[k];
      RStripPadded(s, w[..|w| - 1]);
    } else {
      assert s + w == s;
    }
  }

  /** `' '.join(ps)`. */
  function Join(ps: seq<string>): string
    decreases |ps|
  {
    if |ps| == 0 then [] else if |ps| == 1 then ps[0] else ps[0] + " " + Join(ps[1..])
  }

  /** `s.split(' ')`: at least one piece, no piece holds a space, and joining
      the pieces with single spaces gives back `s`. Consecutive spaces
      produce empty pieces, and the empty string splits into `[""]`. */
  function Split(s: string): (r: seq<string>)
    ensures |r| >= 1
    ensures forall i :: 0 <= i < |r| ==> ' ' !in r[i]
    ensures Join(r) == s
    decreases |s|
  {
    if s == [] then [[]]
    else
      var rest := Split(s[1..]);
      if s[0] == ' ' then
        [[]] + rest
      else
        assert Join([[s[0]] + rest[0]] + rest[1..]) == [s[0]] + Join(rest) by {
          if |rest| > 1 {
            assert ([[s[0]] + rest[0]] + rest[1..])[1..] == rest[1..];
          }
        }
        [[s[0]] + rest[0]] + rest[1..]
  }

  /** A string without spaces is one piece. */
  lemma {:induction false} SplitWord(a: string)
    requires ' ' !in a
    ensures Split(a) == [a]
    decreases |a|
  {
    if a != [] {
      assert a[0] in a;
      assert forall c :: c in a[1..] ==> c in a;
      SplitWord(a[1..]);
    }
  }

  /** A leading space-free word followed by a space splits off as the first piece. */
  lemma {:induction false} SplitCons(a: string, t: string)
    requires ' ' !in a
    ensures Split(a + " " + t) == [a] + Split(t)
    decreases |a|
  {
    var s := a + " " + t;
    if a == [] {
      assert s[1..] == t;
    } else {
      assert a[0] in a;
      assert forall c :: c in a[1..] ==> c in a;
      assert s[1..] == a[1..] + " " + t;
      SplitCons(a[1..], t);
      assert [a[0]] + a[1..] == a;
    }
  }

  /** Splitting undoes joining: pieces without spaces come back unchanged. */
  lemma {:induction false} SplitJoin(ps: seq<string>)
    requires |ps| >= 1
    requires forall i :: 0 <= i < |ps| ==> ' ' !in ps[i]
    ensures Split(Join(ps)) == ps
    decreases |ps|
  {
    if |ps| == 1 {
      SplitWord(ps[0]);
    } else {
      SplitJoin(ps[1..]);
      SplitCons(ps[0], Join(ps[1..]));
    }
  }

  /** The first piece of a non-empty string that does not start with a space
      is not empty. */
  lemma SplitHead(s: string)
    requires s != [] && s[0] != ' '
    ensures Split(s)[0] != [] && Split(s)[0][0] == s[0]
  {
  }

  predicate IsDigit(c: char) {
    '0' <= c <= '9'
  }

  /** The digit part Python's `int(str)` accepts in base 10: ASCII digits,
      with single underscores allowed between two digits. */
  predicate WellFormedDigits(d: string)
    decreases |d|
  {
    |d| > 0 && IsDigit(d[|d| - 1])
    && (|d| == 1
        || if d[|d| - 2] == '_' then WellFormedDigits(d[..|d| - 2]) else WellFormedDigits(d[..|d| - 1]))
  }

  /** The decimal value of the digits of `d`, underscores skipped. */
  function DigitsValue(d: string): nat
    decreases |d|
  {
    if d == [] then 0
    else if d[|d| - 1] == '_' then DigitsValue(d[..|d| - 1])
    else 10 * DigitsValue(d[..|d| - 1]) + DigitValue(d[|d| - 1])
  }

  function DigitValue(c: char): nat {
    if IsDigit(c) then (c as int) - ('0' as int) else 0
  }

  /** The whitespace `int(str)` skips around the number. CPython first turns
      every non-ASCII `isspace` character into a space, then skips only the
      ASCII whitespace \t \n \v \f \r and the space; so the ASCII separators
      U+001C-U+001F, which `strip()` does remove, are not skipped. */
  predicate IntSpace(c: char) {
    IsSpace(c) && !(0x1C <= c as int <= 0x1F)
  }

  /** The whitespace skipping of `int(str)`: drops `IntSpace` characters at
      both ends (`IntStripEnds`, `IntStripSpec` and `IntStripCut` state what
      is left). */
  function IntStrip(s: string): (r: string)
    ensures |r| <= |s|
    decreases |s|
  {
    if s != [] && IntSpace(s[0]) then IntStrip(s[1..])
    else if s != [] && IntSpace(s[|s| - 1]) then IntStrip(s[..|s| - 1])
    else s
  }

  /** What `int` skips to starts and ends with a character it does not skip. */
  lemma {:induction false} IntStripEnds(s: string)
    ensures var r := IntStrip(s);
      r != [] ==> !IntSpace(r[0]) && !IntSpace(r[|r| - 1])
    decreases |s|
  {
    if s != [] && IntSpace(s[0]) {
      IntStripEnds(s[1..]);
    } else if s != [] && IntSpace(s[|s| - 1]) {
      IntStripEnds(s[..|s| - 1]);
    }
  }

  /** The number of `IntSpace` characters `s` starts with. */
  function IntLead(s: string): (r: nat)
    ensures r <= |s|
    decreases |s|
  {
    if s != [] && IntSpace(s[0]) then 1 + IntLead(s[1..]) else 0
  }

  /** What `int` looks at is the piece of `s` after its leading skipped
      whitespace. */
  lemma {:induction false} IntStripSpec(s: string)
    ensures IntLead(s) + |IntStrip(s)| <= |s|
    ensures IntStrip(s) == s[IntLead(s)..IntLead(s) + |IntStrip(s)|]
    decreases |s|
  {
    if s != [] && IntSpace(s[0]) {
      var t := s[1..];
      IntStripSpec(t);
      var l, r := IntLead(t), IntStrip(t);
      assert IntLead(s) == l + 1 && IntStrip(s) == r;
      assert s[l + 1..l + 1 + |r|] == t[l..l + |r|];
    } else if s != [] && IntSpace(s[|s| - 1]) {
      var t := s[..|s| - 1];
      assert t != [] ==> t[0] == s[0];
      IntStripSpec(t);
      var l, r := IntLead(t), IntStrip(t);
      assert IntLead(s) == l && IntStrip(s) == r;
      assert s[l..l + |r|] == t[l..l + |r|];
    }
  }

  /** All `int` skips around that piece is `IntSpace` whitespace. */
  lemma {:induction false} IntStripCut(s: string)
    ensures IntLead(s) + |IntStrip(s)| <= |s|
    ensures forall k :: 0 <= k < IntLead(s) ==> IntSpace(s[k])
    ensures forall k :: IntLead(s) + |IntStrip(s)| <= k < |s| ==> IntSpace(s[k])
    decreases |s|
  {
    IntStripSpec(s);
    if s != [] && IntSpace(s[0]) {
      var t := s[1..];
      IntStripCut(t);
      assert forall k :: 1 <= k < |s| ==> s[k] == t[k - 1];
    } else if s != [] && IntSpace(s[|s| - 1]) {
      var t := s[..|s| - 1];
      assert t != [] ==> t[0] == s[0];
      IntStripCut(t);
    }
  }

  /** `int(s)` in base 10: surrounding whitespace (`IntSpace`) is skipped, one
      optional sign, then the digits. `None` stands for the ValueError
      Python raises. */
  function ParseInt(s: string): Option<int> {
    var t := IntStrip(s);
    if |t| > 0 && (t[0] == '+' || t[0] == '-') then
      if WellFormedDigits(t[1..]) then
        var v: int := DigitsValue(t[1..]);
        Some(if t[0] == '-' then -v else v)
      else None
    else if WellFormedDigits(t) then Some(DigitsValue(t))
    else None
  }

  function DigitChar(d: nat): char
    requires d < 10
  {
    ('0' as int + d) as char
  }

  /** `str(k)` for a natural number `k`: its decimal digits, no leading zero. */
  function ShowNat(k: nat): (r: string)
    ensures |r| > 0 && forall i :: 0 <= i < |r| ==> IsDigit(r[i])
    ensures r[0] != '0' || k == 0
    decreases k
  {
    if k < 10 then [DigitChar(k)] else ShowNat(k / 10) + [DigitChar(k % 10)]
  }

  lemma {:induction false} DigitsValueShowNat(k: nat)
    ensures WellFormedDigits(ShowNat(k)) && DigitsValue(ShowNat(k)) == k
    decreases k
  {
    var r := ShowNat(k);
    if k < 10 {
      assert r[..0] == [];
    } else {
      DigitsValueShowNat(k / 10);
      assert r[..|r| - 1] == ShowNat(k / 10);
      assert r[|r| - 2] != '_' by {
        assert IsDigit(r[|r| - 2]);
      }
    }
  }

  /** `int(str(k)) == k`: `int` reads back the decimal rendering of every
      natural number. */
  lemma ParseIntShowNat(k: nat)
    ensures ParseInt(ShowNat(k)) == Some(k)
  {
    var r := ShowNat(k);
    assert IntStrip(r) == r by {
      assert IsDigit(r[0]) && IsDigit(r[|r| - 1]);
    }
    DigitsValueShowNat(k);
  }

  /** The empty token (from two spaces in a row), a lone sign, misplaced
      underscores and a digit after an ASCII separator are rejected. */
  lemma ParseIntRejects()
    ensures ParseInt("") == None
    ensures ParseInt("+") == None && ParseInt("-") == None
    ensures ParseInt("1__0") == None && ParseInt("_1") == None
    ensures ParseInt("\U{1C}0") == None
  {
    assert IntStrip("+") == "+";
    assert IntStrip("-") == "-";
    assert IntStrip("1__0") == "1__0";
    assert IntStrip("_1") == "_1";
    assert IntStrip("\U{1C}0") == "\U{1C}0";
  }

  /** Non-ASCII whitespace around the number is skipped: `int('\xa0-7\n') == -7`. */
  lemma ParseIntAccepts()
    ensures ParseInt("\U{A0}-7\n") == Some(-7)
  {
    assert IntStrip("\U{A0}-7\n") == "-7";
  }
}
