/** The pieces of Python's string handling the application relies on, read over
    ASCII: the regular-expression classes `\d`, `\s` and `[A-Za-z]`, `str.split`,
    `str.strip` and `int()` on a query-string value. */
module Text {
  import opened Wrappers

  predicate IsDigit(c: char) { '0' <= c <= '9' }

  predicate IsLetter(c: char) { 'A' <= c <= 'Z' || 'a' <= c <= 'z' }

  predicate IsAlnum(c: char) { IsLetter(c) || IsDigit(c) }

  /** The ASCII characters Python counts as whitespace (`str.isspace`, `str.strip`,
      `int` and the regular expression `\s`): space, tab, line feed, vertical tab,
      form feed, carriage return, and the file, group, record and unit separators. */
  predicate IsSpace(c: char) { c == ' ' || '\t' <= c <= '\r' || '\U{1c}' <= c <= '\U{1f}' }

  /** `s` is all digits (`\d*`). */
  predicate AllDigits(s: string)
  {
    forall i :: 0 <= i < |s| ==> IsDigit(s[i])
  }

  /** `s` is all letters (`[A-Za-z]*`). */
  predicate AllLetters(s: string)
  {
    forall i :: 0 <= i < |s| ==> IsLetter(s[i])
  }

  /** `s` is all letters and digits (`[A-Za-z0-9]*`). */
  predicate AllAlnum(s: string)
  {
    forall i :: 0 <= i < |s| ==> IsAlnum(s[i])
  }

  /** `s` is all whitespace (`\s*`). */
  predicate AllSpace(s: string)
  {
    forall i :: 0 <= i < |s| ==> IsSpace(s[i])
  }

  lemma AllDigitsConcat(a: string, b: string)
    ensures AllDigits(a + b) <==> AllDigits(a) && AllDigits(b)
  {
    assert forall i :: 0 <= i < |a| ==> (a + b)[i] == a[i];
    assert forall i :: 0 <= i < |b| ==> (a + b)[|a| + i] == b[i];
  }

  /** The number of leading digits of `s`: how far a greedy `\d+` gets. */
  function LeadingDigits(s: string): (k: nat)
    ensures k <= |s|
    ensures AllDigits(s[..k])
    ensures k < |s| ==> !IsDigit(s[k])
  {
    if |s| == 0 || !IsDigit(s[0]) then 0
    else
      var k := 1 + LeadingDigits(s[1..]);
      assert s[..k] == [s[0]] + s[1..][..k - 1];
      k
  }

  // ---------------------------------------------------------------------------
  // str.strip()

  /** `s` without its leading whitespace: a suffix of `s`, with only whitespace before it. */
  function TrimLeft(s: string): (r: string)
    ensures |r| <= |s| && r == s[|s| - |r|..]
    ensures AllSpace(s[..|s| - |r|])
    ensures r == [] || !IsSpace(r[0])
  {
    if |s| > 0 && IsSpace(s[0]) then
      var r := TrimLeft(s[1..]);
      var n := |s| - |r|;
      assert s[1..][|s| - 1 - |r|..] == s[n..];
      assert AllSpace(s[..n]) by {
        assert forall i :: 1 <= i < n ==> s[..n][i] == s[1..][..n - 1][i - 1];
      }
      r
    else s
  }

  /** `s` without its trailing whitespace: a prefix of `s`, with only whitespace after it. */
  function TrimRight(s: string): (r: string)
    ensures |r| <= |s| && r == s[..|r|]
    ensures AllSpace(s[|r|..])
    ensures r == [] || !IsSpace(r[|r| - 1])
  {
    if |s| > 0 && IsSpace(s[|s| - 1]) then
      var r := TrimRight(s[..|s| - 1]);
      assert s[|r|..] == s[..|s| - 1][|r|..] + [s[|s| - 1]];
      r
    else s
  }

  /** Python's `str.strip()` with no argument: the core of `s` between its
      leading and trailing whitespace. */
  function Strip(s: string): (r: string)
  {
    TrimRight(TrimLeft(s))
  }

  /** What `Strip` keeps neither starts nor ends with whitespace. */
  lemma StripEnds(s: string)
    ensures Strip(s) == [] || (!IsSpace(Strip(s)[0]) && !IsSpace(Strip(s)[|Strip(s)| - 1]))
  {
    var l := TrimLeft(s);
    var r := TrimRight(l);
    if r != [] {
      assert r[0] == l[0];
    }
  }

  lemma StripNoSpace(s: string)
    requires s == [] || (!IsSpace(s[0]) && !IsSpace(s[|s| - 1]))
    ensures Strip(s) == s
  {
    assert TrimLeft(s) == s;
    assert TrimRight(s) == s;
  }

  // ---------------------------------------------------------------------------
  // str.split(sep)

  /** Python's `s.split(sep)` for a one-character separator: the pieces between
      separators, in order, empty pieces included; never an empty list. */
  function Split(s: string, sep: char): (parts: seq<string>)
    ensures |parts| >= 1
    ensures forall k :: 0 <= k < |parts| ==> sep !in parts[k]
    decreases |s|
  {
    if |s| == 0 then [""]
    else
      var rest := Split(s[1..], sep);
      if s[0] == sep then [""] + rest
      else [[s[0]] + rest[0]] + rest[1..]
  }

  /** Python's `sep.join(parts)`. */
  function Join(parts: seq<string>, sep: char): string
  {
    if |parts| == 0 then ""
    else if |parts| == 1 then parts[0]
    else parts[0] + [sep] + Join(parts[1..], sep)
  }

  lemma {:induction false} JoinSplit(s: string, sep: char)
    ensures Join(Split(s, sep), sep) == s
    decreases |s|
  {
    if |s| > 0 {
      var rest := Split(s[1..], sep);
      JoinSplit(s[1..], sep);
      if s[0] == sep {
        assert s == [sep] + s[1..];
      } else {
        var parts := Split(s, sep);
        assert parts[1..] == rest[1..];
        if |rest| == 1 {
          assert s == [s[0]] + s[1..];
        } else {
          assert Join(rest, sep) == rest[0] + [sep] + Join(rest[1..], sep);
          assert s == [s[0]] + s[1..];
        }
      }
    }
  }

  lemma {:induction false} SplitJoin(parts: seq<string>, sep: char)
    requires |parts| >= 1
    requires forall k :: 0 <= k < |parts| ==> sep !in parts[k]
    ensures Split(Join(parts, sep), sep) == parts
    decreases |parts|, |parts[0]|, 1
  {
    if |parts[0]| > 0 {
      SplitJoinLetter(parts, sep);
    } else if |parts| > 1 {
      SplitJoinSeparator(parts, sep);
    }
  }

  /** An empty first piece: the joined text starts with the separator. */
  lemma {:induction false} SplitJoinSeparator(parts: seq<string>, sep: char)
    requires |parts| > 1 && parts[0] == ""
    requires forall k :: 0 <= k < |parts| ==> sep !in parts[k]
    ensures Split(Join(parts, sep), sep) == parts
    decreases |parts|, |parts[0]|, 0
  {
    SplitJoin(parts[1..], sep);
    var s := Join(parts, sep);
    assert s[0] == sep && s[1..] == Join(parts[1..], sep) by {
      assert s == [sep] + Join(parts[1..], sep);
    }
    assert [""] + parts[1..] == parts;
  }

  /** A non-empty first piece: the joined text starts with its first character. */
  lemma {:induction false} SplitJoinLetter(parts: seq<string>, sep: char)
    requires |parts| >= 1 && |parts[0]| > 0
    requires forall k :: 0 <= k < |parts| ==> sep !in parts[k]
    ensures Split(Join(parts, sep), sep) == parts
    decreases |parts|, |parts[0]|, 0
  {
    var p := parts[0];
    var tail := [p[1..]] + parts[1..];
    assert sep !in p[1..] by {
      assert forall c :: c in p[1..] ==> c in p;
    }
    SplitJoin(tail, sep);
    var s := Join(parts, sep);
    assert tail[1..] == parts[1..];
    assert s[0] == p[0] && s[1..] == Join(tail, sep) by {
      var after := if |parts| == 1 then "" else [sep] + Join(parts[1..], sep);
      assert s == p + after;
      assert Join(tail, sep) == p[1..] + after;
      assert (p + after)[1..] == p[1..] + after;
    }
    assert p[0] != sep by { assert p[0] in p; }
    assert [[p[0]] + p[1..]] + parts[1..] == parts by {
      assert [p[0]] + p[1..] == p;
    }
  }

  // ---------------------------------------------------------------------------
  // int() on a query-string value

  function DigitValue(c: char): nat
    requires IsDigit(c)
  {
    assert '0' as int <= c as int;
    (c as int) - ('0' as int)
  }

  /** The decimal value of a string of digits. */
  function DigitsValue(s: string): nat
    requires AllDigits(s)
  {
    if |s| == 0 then 0 else DigitsValue(s[..|s| - 1]) * 10 + DigitValue(s[|s| - 1])
  }

  /** The most digits `int()` reads from a decimal string: the default of
      `sys.get_int_max_str_digits()` from CPython 3.11 on (and in the 3.7.14, 3.8.14,
      3.9.14 and 3.10.7 security releases). A longer numeral raises ValueError.
      Leading zeros count; underscores and the sign do not. */
  const MaxStrDigits := 4300

  /** How many digit characters `t` holds. */
  function DigitCount(t: string): nat
  {
    if |t| == 0 then 0 else DigitCount(t[..|t| - 1]) + (if IsDigit(t[|t| - 1]) then 1 else 0)
  }

  /** In a run of digits every character is counted. */
  lemma {:induction false} DigitCountAll(d: string)
    requires AllDigits(d)
    ensures DigitCount(d) == |d|
  {
    if |d| > 0 {
      var front := d[..|d| - 1];
      assert AllDigits(front) by {
        assert forall i :: 0 <= i < |front| ==> front[i] == d[i];
      }
      assert IsDigit(d[|d| - 1]);
      DigitCountAll(front);
    }
  }

  /** Digits are counted piece by piece. */
  lemma {:induction false} DigitCountConcat(a: string, b: string)
    ensures DigitCount(a + b) == DigitCount(a) + DigitCount(b)
    decreases |b|
  {
    if |b| > 0 {
      var ab := a + b;
      assert ab[..|ab| - 1] == a + b[..|b| - 1];
      assert ab[|ab| - 1] == b[|b| - 1];
      DigitCountConcat(a, b[..|b| - 1]);
    } else {
      assert a + b == a;
    }
  }

  /** Python's `int(s)` on a string, as an Option: surrounding whitespace is
      stripped, then an optional sign and one or more digits are required,
      which single underscores may separate into groups, and there may be at
      most `MaxStrDigits` digits. */
  function ParseInt(s: string): (r: Option<int>)
  {
    var t := Strip(s);
    if DigitCount(t) > MaxStrDigits then None else ParseSigned(t)
  }

  /** An optional sign followed by digit groups. */
  function ParseSigned(t: string): (r: Option<int>)
  {
    var signed := |t| > 0 && (t[0] == '-' || t[0] == '+');
    var digits := if signed then t[1..] else t;
    if Grouped(digits) then
      GroupedDigits(digits);
      var v: int := DigitsValue(Ungrouped(digits));
      Some(if signed && t[0] == '-' then -v else v)
    else None
  }

  /** The digits of an integer literal in the form `int()` reads (PEP 515):
      the pieces between underscores are all non-empty runs of digits, so an
      underscore stands only between two digits. The empty text is one empty piece. */
  predicate Grouped(d: string)
  {
    var groups := Split(d, '_');
    forall k :: 0 <= k < |groups| ==> |groups[k]| > 0 && AllDigits(groups[k])
  }

  /** `d` without its underscores. */
  function Ungrouped(d: string): string
  {
    if |d| == 0 then "" else (if d[0] == '_' then "" else [d[0]]) + Ungrouped(d[1..])
  }

  /** The digit groups hold nothing but digits and underscores. */
  lemma GroupedChars(d: string)
    ensures Grouped(d) ==> forall i :: 0 <= i < |d| ==> IsDigit(d[i]) || d[i] == '_'
  {
    if Grouped(d) {
      SplitDigits(d, '_');
    }
  }

  /** Without the underscores, the digit groups are a run of digits. */
  lemma GroupedDigits(d: string)
    requires Grouped(d)
    ensures AllDigits(Ungrouped(d))
  {
    GroupedChars(d);
    UngroupedDigits(d);
  }

  /** Pieces of digits only come from text of digits and separators only. */
  lemma {:induction false} SplitDigits(s: string, sep: char)
    requires forall k :: 0 <= k < |Split(s, sep)| ==> AllDigits(Split(s, sep)[k])
    ensures forall i :: 0 <= i < |s| ==> IsDigit(s[i]) || s[i] == sep
    decreases |s|
  {
    if |s| > 0 {
      var rest := Split(s[1..], sep);
      var parts := Split(s, sep);
      if s[0] == sep {
        assert forall k :: 0 <= k < |rest| ==> rest[k] == parts[k + 1];
      } else {
        assert parts == [[s[0]] + rest[0]] + rest[1..];
        assert IsDigit(parts[0][0]);
        forall k | 0 <= k < |rest|
          ensures AllDigits(rest[k])
        {
          if k == 0 {
            assert forall i :: 0 <= i < |rest[0]| ==> rest[0][i] == parts[0][i + 1];
          } else {
            assert rest[k] == parts[k];
          }
        }
      }
      SplitDigits(s[1..], sep);
      assert forall i :: 1 <= i < |s| ==> s[i] == s[1..][i - 1];
    }
  }

  lemma {:induction false} UngroupedDigits(d: string)
    requires forall i :: 0 <= i < |d| ==> IsDigit(d[i]) || d[i] == '_'
    ensures AllDigits(Ungrouped(d))
    decreases |d|
  {
    if |d| > 0 {
      assert forall i :: 0 <= i < |d| - 1 ==> d[1..][i] == d[i + 1];
      UngroupedDigits(d[1..]);
      AllDigitsConcat(if d[0] == '_' then "" else [d[0]], Ungrouped(d[1..]));
    }
  }

  /** Text without an underscore is left as it is. */
  lemma {:induction false} UngroupedPlain(d: string)
    requires '_' !in d
    ensures Ungrouped(d) == d
    decreases |d|
  {
    if |d| > 0 {
      assert d[0] in d;
      assert forall c :: c in d[1..] ==> c in d;
      UngroupedPlain(d[1..]);
      assert d == [d[0]] + d[1..];
    }
  }

  /** Text without the separator splits into itself alone. */
  lemma {:induction false} SplitPlain(s: string, sep: char)
    requires sep !in s
    ensures Split(s, sep) == [s]
    decreases |s|
  {
    if |s| > 0 {
      assert s[0] in s;
      assert forall c :: c in s[1..] ==> c in s;
      SplitPlain(s[1..], sep);
      assert s == [s[0]] + s[1..];
    }
  }

  function DigitChar(d: nat): (c: char)
    requires d < 10
    ensures IsDigit(c) && DigitValue(c) == d
  {
    ('0' as int + d) as char
  }

  /** The decimal notation of a natural number, as `str(n)` gives it. */
  function ShowNat(n: nat): (s: string)
    decreases n
  {
    if n < 10 then [DigitChar(n)] else ShowNat(n / 10) + [DigitChar(n % 10)]
  }

  lemma {:induction false} ShowNatDigits(n: nat)
    ensures |ShowNat(n)| > 0 && AllDigits(ShowNat(n))
    ensures DigitsValue(ShowNat(n)) == n
    decreases n
  {
    if n >= 10 {
      ShowNatDigits(n / 10);
      var s := ShowNat(n);
      AllDigitsConcat(ShowNat(n / 10), [DigitChar(n % 10)]);
      assert s[..|s| - 1] == ShowNat(n / 10);
    }
  }

  /** A non-empty run of digits, with no sign, reads as its decimal value. */
  lemma ParseSignedDigits(t: string)
    requires |t| > 0 && AllDigits(t)
    ensures ParseSigned(t) == Some(DigitsValue(t) as int)
  {
    assert !(t[0] == '-' || t[0] == '+') by {
      assert IsDigit(t[0]);
    }
    assert '_' !in t by {
      assert forall i :: 0 <= i < |t| ==> t[i] != '_';
    }
    assert Grouped(t) by {
      SplitPlain(t, '_');
    }
    assert Ungrouped(t) == t by {
      UngroupedPlain(t);
    }
  }

  /** The ASCII separators count as whitespace around a number: `int("\x1c5") == 5`. */
  lemma ParseIntSeparator()
    ensures ParseInt("\U{1c}5") == Some(5)
  {
    assert TrimLeft("\U{1c}5") == "5" by {
      assert "\U{1c}5"[1..] == "5";
    }
    assert TrimRight("5") == "5";
    assert DigitCount("5") == 1 by {
      assert "5"[..0] == "";
    }
    ParseSignedDigits("5");
    assert DigitsValue("5") == 5 by {
      assert "5"[..0] == "";
    }
  }

  /** Whitespace in front of a number is ignored: `int(w + str(n)) == n` for any whitespace `w`. */
  lemma ParseIntLeadingSpace(w: string, n: nat)
    requires AllSpace(w) && |ShowNat(n)| <= MaxStrDigits
    ensures ParseInt(w + ShowNat(n)) == Some(n)
  {
    var t := ShowNat(n);
    ShowNatDigits(n);
    assert TrimLeft(w + t) == t by {
      assert IsDigit(t[0]);
      TrimLeftSpaces(w, t);
    }
    assert ParseInt(t) == Some(n) by {
      ParseShowNat(n);
    }
  }

  /** Stripping the front removes exactly a run of whitespace before text that does not start with whitespace. */
  lemma {:induction false} TrimLeftSpaces(w: string, t: string)
    requires AllSpace(w) && (t == [] || !IsSpace(t[0]))
    ensures TrimLeft(w + t) == TrimLeft(t) == t
    decreases |w|
  {
    if |w| > 0 {
      assert (w + t)[0] == w[0] && (w + t)[1..] == w[1..] + t;
      assert AllSpace(w[1..]) by {
        assert forall i :: 0 <= i < |w| - 1 ==> w[1..][i] == w[i + 1];
      }
      TrimLeftSpaces(w[1..], t);
    } else {
      assert w + t == t;
    }
  }

  /** Stripping the back removes exactly a run of whitespace after text that does not end with whitespace. */
  lemma {:induction false} TrimRightSpaces(t: string, w: string)
    requires AllSpace(w) && (t == [] || !IsSpace(t[|t| - 1]))
    ensures TrimRight(t + w) == t
    decreases |w|
  {
    if |w| > 0 {
      var u := t + w;
      var front := w[..|w| - 1];
      assert u[|u| - 1] == w[|w| - 1];
      assert u[..|u| - 1] == t + front;
      assert AllSpace(front) by {
        assert forall i :: 0 <= i < |front| ==> front[i] == w[i];
      }
      TrimRightSpaces(t, front);
    } else {
      assert t + w == t;
    }
  }

  /** Stripping removes exactly the whitespace around a core that neither starts nor ends with whitespace. */
  lemma StripSurrounded(w1: string, v: string, w2: string)
    requires AllSpace(w1) && AllSpace(w2)
    requires v == [] || (!IsSpace(v[0]) && !IsSpace(v[|v| - 1]))
    ensures Strip(w1 + v + w2) == v
  {
    if v == [] {
      assert w1 + v + w2 == (w1 + w2) + [];
      AllSpaceConcat(w1, w2);
      TrimLeftSpaces(w1 + w2, []);
    } else {
      assert w1 + v + w2 == w1 + (v + w2);
      assert (v + w2)[0] == v[0];
      TrimLeftSpaces(w1, v + w2);
      TrimRightSpaces(v, w2);
    }
  }

  lemma AllSpaceConcat(a: string, b: string)
    requires AllSpace(a) && AllSpace(b)
    ensures AllSpace(a + b)
  {
    assert forall i :: 0 <= i < |a| + |b| ==> (a + b)[i] == if i < |a| then a[i] else b[i - |a|];
  }

  /** `int(str(n)) == n`, for every number within the digit limit. */
  lemma ParseShowNat(n: nat)
    requires |ShowNat(n)| <= MaxStrDigits
    ensures ParseInt(ShowNat(n)) == Some(n)
  {
    var s := ShowNat(n);
    ShowNatDigits(n);
    assert IsDigit(s[0]) && IsDigit(s[|s| - 1]);
    StripNoSpace(s);
    DigitCountAll(s);
    ParseSignedDigits(s);
  }

  /** A run of digits longer than the limit is no integer, whatever its value:
      `int("1" * 4301)` raises. */
  lemma ParseIntTooLong(d: string)
    requires AllDigits(d) && |d| > MaxStrDigits
    ensures ParseInt(d) == None
  {
    assert IsDigit(d[0]) && IsDigit(d[|d| - 1]);
    DigitEndsBare(d);
    DigitCountAll(d);
  }

  /** A value holding a character outside digits, signs, underscores and whitespace is not an integer. */
  lemma ParseIntRejects(s: string, k: nat)
    requires k < |s| && !IsDigit(s[k]) && !IsSpace(s[k]) && s[k] != '-' && s[k] != '+' && s[k] != '_'
    ensures ParseInt(s) == None
  {
    var m := StripKeeps(s, k);
    ParseSignedRejects(Strip(s), m);
  }

  /** Stripping keeps every character that is not whitespace, at index `m`: shifted
      left by the whitespace removed in front. */
  lemma StripKeeps(s: string, k: nat) returns (m: nat)
    requires k < |s| && !IsSpace(s[k])
    ensures |s| - |TrimLeft(s)| <= k && m == k - (|s| - |TrimLeft(s)|)
    ensures m < |Strip(s)| && Strip(s)[m] == s[k]
  {
    m := TrimLeftKeepsAt(s, k);
    TrimRightKeeps(TrimLeft(s), m);
  }

  /** `TrimLeft` keeps every character that is not whitespace, shifted left by the
      whitespace it removes. */
  lemma TrimLeftKeepsAt(s: string, k: nat) returns (m: nat)
    requires k < |s| && !IsSpace(s[k])
    ensures |s| - |TrimLeft(s)| <= k && m == k - (|s| - |TrimLeft(s)|)
    ensures m < |TrimLeft(s)| && TrimLeft(s)[m] == s[k]
  {
    var l := TrimLeft(s);
    var i := |s| - |l|;
    TrimLeftKeeps(s, k);
    m := k - i;
    assert l == s[i..];
  }

  /** The whitespace `TrimLeft` removes ends before any character that is not whitespace. */
  lemma TrimLeftKeeps(s: string, k: nat)
    requires k < |s| && !IsSpace(s[k])
    ensures |s| - |TrimLeft(s)| <= k
  {
    var i := |s| - |TrimLeft(s)|;
    assert forall j :: 0 <= j < i ==> s[..i][j] == s[j];
  }

  /** `TrimRight` keeps, in place, every character that is not whitespace. */
  lemma TrimRightKeeps(l: string, m: nat)
    requires m < |l| && !IsSpace(l[m])
    ensures m < |TrimRight(l)| && TrimRight(l)[m] == l[m]
  {
    var t := TrimRight(l);
    assert forall j :: |t| <= j < |l| ==> l[|t|..][j - |t|] == l[j];
  }

  /** A character other than a digit or an underscore anywhere, or a sign past the front, makes the text no integer. */
  lemma ParseSignedRejects(t: string, m: nat)
    requires m < |t| && !IsDigit(t[m]) && t[m] != '-' && t[m] != '+' && t[m] != '_'
    ensures ParseSigned(t) == None
  {
    var signed := |t| > 0 && (t[0] == '-' || t[0] == '+');
    var digits := if signed then t[1..] else t;
    var off := if signed then 1 else 0;
    assert m >= off;
    assert digits[m - off] == t[m];
    GroupedChars(digits);
  }

  /** Underscores between digits are read past. */
  lemma ParseSignedGrouped()
    ensures ParseSigned("1_0") == Some(10)
    ensures ParseSigned("-1_0") == Some(-10)
  {
    SplitOneZero();
    assert "-1_0"[1..] == "1_0";
    assert Ungrouped("1_0") == "10" by {
      assert "1_0"[1..] == "_0" && "_0"[1..] == "0" && "0"[1..] == "";
      assert Ungrouped("0") == "0";
      assert Ungrouped("_0") == "0";
    }
    assert DigitsValue("10") == 10 by {
      assert "10"[..1] == "1";
      assert "1"[..0] == "";
    }
  }

  /** Two runs of digits joined by one underscore read as the digits together. */
  lemma ParseIntGroups(x: string, y: string)
    requires |x| > 0 && AllDigits(x) && |y| > 0 && AllDigits(y)
    requires |x| + |y| <= MaxStrDigits
    ensures AllDigits(x + y)
    ensures ParseInt(x + "_" + y) == Some(DigitsValue(x + y) as int)
  {
    AllDigitsConcat(x, y);
    var d := x + "_" + y;
    assert IsDigit(d[0]) && IsDigit(d[|d| - 1]) by {
      assert d[0] == x[0] && d[|d| - 1] == y[|y| - 1];
    }
    DigitEndsBare(d);
    JoinedDigitsGrouped(x, y);
    JoinedDigitsUngrouped(x, y);
    ParseSignedUnsigned(d);
    JoinedDigitCount(x, y);
  }

  /** The underscore joining two digit runs is not counted. */
  lemma JoinedDigitCount(x: string, y: string)
    requires AllDigits(x) && AllDigits(y)
    ensures DigitCount(x + "_" + y) == |x| + |y|
  {
    DigitCountConcat(x + "_", y);
    DigitCountConcat(x, "_");
    assert DigitCount("_") == 0 by {
      assert "_"[..0] == "";
    }
    DigitCountAll(x);
    DigitCountAll(y);
  }

  /** Text that starts and ends with a digit has no surrounding whitespace and no sign. */
  lemma DigitEndsBare(d: string)
    requires |d| > 0 && IsDigit(d[0]) && IsDigit(d[|d| - 1])
    ensures Strip(d) == d && d[0] != '-' && d[0] != '+'
  {
    assert d[0] != '-' && d[0] != '+';
    assert Strip(d) == d by {
      StripNoSpace(d);
    }
  }

  lemma NoUnderscore(s: string)
    requires AllDigits(s)
    ensures '_' !in s
  {
    assert forall i :: 0 <= i < |s| ==> s[i] != '_';
  }

  /** Digit runs joined by an underscore are two digit groups. */
  lemma JoinedDigitsGrouped(x: string, y: string)
    requires |x| > 0 && AllDigits(x) && |y| > 0 && AllDigits(y)
    ensures Grouped(x + "_" + y)
  {
    NoUnderscore(x);
    NoUnderscore(y);
    SplitTwo(x, y, '_');
  }

  /** Dropping the underscore joining two digit runs leaves the runs. */
  lemma JoinedDigitsUngrouped(x: string, y: string)
    requires AllDigits(x) && AllDigits(y)
    ensures Ungrouped(x + "_" + y) == x + y
  {
    NoUnderscore(x);
    NoUnderscore(y);
    var tail := "_" + y;
    assert Ungrouped(tail) == y by {
      assert tail[0] == '_' && tail[1..] == y;
      UngroupedPlain(y);
    }
    assert x + "_" + y == x + tail;
    UngroupedConcat(x, tail);
    UngroupedPlain(x);
  }

  /** Grouped digits with no sign read as the value of their digits. */
  lemma ParseSignedUnsigned(d: string)
    requires Grouped(d) && (|d| == 0 || (d[0] != '-' && d[0] != '+'))
    ensures AllDigits(Ungrouped(d))
    ensures ParseSigned(d) == Some(DigitsValue(Ungrouped(d)) as int)
  {
    GroupedDigits(d);
  }

  /** Two pieces without the separator, joined by it, split back into the two. */
  lemma SplitTwo(x: string, y: string, sep: char)
    requires sep !in x && sep !in y
    ensures Split(x + [sep] + y, sep) == [x, y]
  {
    var parts := [x, y];
    assert Join(parts, sep) == x + [sep] + y by {
      assert parts[1..] == [y];
    }
    forall k | 0 <= k < |parts|
      ensures sep !in parts[k]
    {
      assert parts[k] == if k == 0 then x else y;
    }
    SplitJoin(parts, sep);
  }

  /** Dropping underscores distributes over concatenation. */
  lemma {:induction false} UngroupedConcat(a: string, b: string)
    ensures Ungrouped(a + b) == Ungrouped(a) + Ungrouped(b)
    decreases |a|
  {
    if |a| > 0 {
      UngroupedConcat(a[1..], b);
      var h := if a[0] == '_' then "" else [a[0]];
      assert (a + b)[1..] == a[1..] + b;
      assert (a + b)[0] == a[0];
      assert Ungrouped(a + b) == h + (Ungrouped(a[1..]) + Ungrouped(b));
      assert h + (Ungrouped(a[1..]) + Ungrouped(b)) == (h + Ungrouped(a[1..])) + Ungrouped(b);
    } else {
      assert a + b == b;
    }
  }

  lemma SplitOneZero()
    ensures Split("1_0", '_') == ["1", "0"]
  {
    SplitPlain("0", '_');
    assert Split("_0", '_') == ["", "0"] by {
      assert "_0"[1..] == "0";
    }
    assert "1_0"[1..] == "_0";
    assert ["", "0"][1..] == ["0"];
    assert ['1'] + "" == "1";
  }

  /** An underscore at either end, or two in a row, make the text no integer. */
  lemma ParseSignedStrayUnderscore()
    ensures ParseSigned("_1") == None && ParseSigned("1_") == None && ParseSigned("1__0") == None
  {
    assert Split("_1", '_')[0] == "";
    assert Split("1_", '_')[1] == "" by {
      assert "1_"[1..] == "_";
      assert Split("_", '_') == ["", ""] by {
        assert "_"[1..] == "";
      }
    }
    assert Split("1__0", '_')[1] == "" by {
      assert "1__0"[1..] == "__0";
      assert Split("__0", '_') == [""] + Split("_0", '_');
    }
  }

}
