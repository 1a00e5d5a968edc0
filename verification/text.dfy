/** String operations the system borrows from Python's `str`: stripping,
    splitting, partitioning, case folding, code-point ordering and decimal
    conversion. Each is stated as a contract so the modules above can reason
    about URLs, log lines and query strings without unfolding the recursion. */
module Text {
  import opened Wrappers

  predicate StartsWith(s: string, prefix: string) {
    |prefix| <= |s| && s[..|prefix|] == prefix
  }

  predicate EndsWith(s: string, suffix: string) {
    |suffix| <= |s| && s[|s| - |suffix|..] == suffix
  }

  /** Every character of `s` is `c`. */
  predicate AllChar(s: string, c: char) {
    forall i :: 0 <= i < |s| ==> s[i] == c
  }

  /** Python's `s.rstrip(c)` for a single character `c`. */
  function RStripChar(s: string, c: char): (r: string)
    ensures |r| <= |s| && r == s[..|r|]
    ensures |r| == 0 || r[|r| - 1] != c
    ensures AllChar(s[|r|..], c)
    decreases |s|
  {
    if |s| > 0 && s[|s| - 1] == c then RStripChar(s[..|s| - 1], c) else s
  }

  /** A string that does not end in `c` is its own `rstrip(c)`. */
  lemma RStripCharNoop(s: string, c: char)
    requires |s| > 0 && s[|s| - 1] != c
    ensures RStripChar(s, c) == s
  {
  }

  /** Python's `s.lstrip(c)` for a single character `c`. */
  function LStripChar(s: string, c: char): (r: string)
    ensures |r| <= |s|
    ensures |r| == 0 || r[0] != c
    decreases |s|
  {
    if |s| > 0 && s[0] == c then LStripChar(s[1..], c) else s
  }

  /** What `lstrip(c)` removes is a run of `c` at the front, and what it
      keeps is the rest of the string. */
  lemma {:induction false} LStripCharSuffix(s: string, c: char)
    ensures |LStripChar(s, c)| <= |s|
    ensures LStripChar(s, c) == s[|s| - |LStripChar(s, c)|..]
    ensures AllChar(s[..|s| - |LStripChar(s, c)|], c)
    decreases |s|
  {
    if |s| > 0 && s[0] == c {
      LStripCharSuffix(s[1..], c);
      var r := LStripChar(s, c);
      assert s[1..][|s| - 1 - |r|..] == s[|s| - |r|..];
      var p := s[..|s| - |r|];
      forall i | 0 <= i < |p| ensures p[i] == c {
        if i > 0 { assert p[i] == s[1..][..|s| - 1 - |r|][i - 1]; }
      }
    }
  }

  /** Python's `s.strip(c)` for a single character `c`. */
  function StripChar(s: string, c: char): (r: string)
    ensures |r| == 0 || (r[0] != c && r[|r| - 1] != c)
  {
    RStripChar(LStripChar(s, c), c)
  }

  /** A string with no `c` at either end is its own strip. */
  lemma StripCharNoop(s: string, c: char)
    requires |s| > 0 && s[0] != c && s[|s| - 1] != c
    ensures StripChar(s, c) == s
  {
  }

  /** The characters for which Python's `str.isspace()` holds. */
  predicate IsSpace(ch: char) {
    ch == ' ' || ('\t' <= ch <= '\r') || ('\U{1C}' <= ch <= '\U{1F}')
    || ch == '\U{85}' || ch == '\U{A0}' || ch == '\U{1680}'
    || ('\U{2000}' <= ch <= '\U{200A}') || ch == '\U{2028}' || ch == '\U{2029}'
    || ch == '\U{202F}' || ch == '\U{205F}' || ch == '\U{3000}'
  }

  /** Python's argument-less `s.lstrip()`. */
  function LStrip(s: string): (r: string)
    ensures |r| <= |s|
    ensures |r| == 0 || !IsSpace(r[0])
    decreases |s|
  {
    if |s| > 0 && IsSpace(s[0]) then LStrip(s[1..]) else s
  }

  /** Python's argument-less `s.rstrip()`. */
  function RStrip(s: string): (r: string)
    ensures |r| <= |s|
    ensures |r| == 0 || !IsSpace(r[|r| - 1])
    decreases |s|
  {
    if |s| > 0 && IsSpace(s[|s| - 1]) then RStrip(s[..|s| - 1]) else s
  }

  /** Python's argument-less `s.strip()`. */
  function Strip(s: string): (r: string)
    ensures |r| <= |s|
    ensures |r| == 0 || (!IsSpace(r[0]) && !IsSpace(r[|r| - 1]))
  {
    var l := LStrip(s);
    var r := RStrip(l);
    RStripPrefix(l);
    assert |r| > 0 ==> r[0] == l[0];
    r
  }

  /** What `rstrip()` keeps is a prefix of the string. */
  lemma {:induction false} RStripPrefix(s: string)
    ensures RStrip(s) == s[..|RStrip(s)|]
    decreases |s|
  {
    if |s| > 0 && IsSpace(s[|s| - 1]) {
      RStripPrefix(s[..|s| - 1]);
      assert s[..|s| - 1][..|RStrip(s)|] == s[..|RStrip(s)|];
    }
  }

  /** Leading whitespace does not change what `Strip` keeps. */
  lemma StripSkipsLeadingSpace(s: string)
    ensures Strip(" " + s) == Strip(s)
  {
    assert (" " + s)[1..] == s;
  }

  /** `lstrip` of a concatenation: once the first part has something left,
      the second part is kept whole. */
  lemma {:induction false} LStripAppend(s: string, x: string)
    ensures LStrip(s + x) == if LStrip(s) == "" then LStrip(x) else LStrip(s) + x
    decreases |s|
  {
    if |s| == 0 {
      assert s + x == x;
    } else if IsSpace(s[0]) {
      assert (s + x)[1..] == s[1..] + x;
      LStripAppend(s[1..], x);
    }
  }

  /** Whitespace around a value, as a log line adds it, does not change
      what `strip()` keeps. */
  lemma StripLogValue(v: string)
    ensures Strip(" " + v + "\n") == Strip(v)
  {
    assert " " + v + "\n" == " " + (v + "\n");
    StripSkipsLeadingSpace(v + "\n");
    LStripAppend(v, "\n");
    var l := LStrip(v);
    if l != "" {
      assert (l + "\n")[..|l|] == l;
    }
  }

  /** ASCII case folding (Python's `str.lower()` on ASCII text). */
  function LowerChar(ch: char): char {
    if 'A' <= ch <= 'Z' then (ch as int + 32) as char else ch
  }

  function Lower(s: string): (r: string)
    ensures |r| == |s|
    ensures forall i :: 0 <= i < |s| ==> r[i] == LowerChar(s[i])
  {
    seq(|s|, i requires 0 <= i < |s| => LowerChar(s[i]))
  }

  /** Python's `ch in s` for a single character. */
  predicate Contains(s: string, ch: char) {
    exists i :: 0 <= i < |s| && s[i] == ch
  }

  /** Python's `s.split(c)` for a one-character separator: every piece is
      kept, empty ones included, so there is always at least one piece. */
  function Split(s: string, c: char): (r: seq<string>)
    ensures |r| >= 1
    ensures forall k :: 0 <= k < |r| ==> !Contains(r[k], c)
    decreases |s|
  {
    if |s| == 0 then [""]
    else
      var rest := Split(s[1..], c);
      if s[0] == c then [""] + rest
      else
        var head := [s[0]] + rest[0];
        assert !Contains(head, c) by {
          forall i | 0 <= i < |head| ensures head[i] != c {
            if i > 0 { assert head[i] == rest[0][i - 1]; }
          }
        }
        [head] + rest[1..]
  }

  /** A character the text does not hold is in none of its pieces. */
  lemma {:induction false} SplitKeepsAbsent(s: string, c: char, d: char)
    requires !Contains(s, d)
    ensures forall k :: 0 <= k < |Split(s, c)| ==> !Contains(Split(s, c)[k], d)
    decreases |s|
  {
    if |s| > 0 {
      assert !Contains(s[1..], d) by {
        forall i | 0 <= i < |s[1..]| ensures s[1..][i] != d { assert s[1..][i] == s[i + 1]; }
      }
      SplitKeepsAbsent(s[1..], c, d);
      var rest := Split(s[1..], c);
      if s[0] != c {
        var head := [s[0]] + rest[0];
        forall i | 0 <= i < |head| ensures head[i] != d {
          if i > 0 { assert head[i] == rest[0][i - 1]; }
        }
      }
    }
  }

  /** A string without the separator splits into itself. */
  lemma {:induction false} SplitWithoutSeparator(s: string, c: char)
    requires !Contains(s, c)
    ensures Split(s, c) == [s]
    decreases |s|
  {
    if |s| > 0 {
      assert !Contains(s[1..], c) by {
        forall i | 0 <= i < |s[1..]| ensures s[1..][i] != c {
          assert s[1..][i] == s[i + 1];
        }
      }
      SplitWithoutSeparator(s[1..], c);
      assert s[0] != c;
      assert [s[0]] + s[1..] == s;
    }
  }

  /** A piece without the separator, followed by the separator, splits off
      as the first piece. */
  lemma {:induction false} SplitAtSeparator(a: string, c: char, rest: string)
    requires !Contains(a, c)
    ensures Split(a + [c] + rest, c) == [a] + Split(rest, c)
    decreases |a|
  {
    var s := a + [c] + rest;
    if |a| == 0 {
      assert s[0] == c && s[1..] == rest;
    } else {
      assert !Contains(a[1..], c) by {
        forall i | 0 <= i < |a[1..]| ensures a[1..][i] != c {
          assert a[1..][i] == a[i + 1];
        }
      }
      SplitAtSeparator(a[1..], c, rest);
      assert s[0] == a[0] && a[0] != c;
      assert s[1..] == a[1..] + [c] + rest;
      assert [a[0]] + a[1..] == a;
    }
  }

  /** Python's `c.join(parts)` for a one-character separator. */
  function Join(parts: seq<string>, c: char): string
    decreases |parts|
  {
    if |parts| == 0 then ""
    else if |parts| == 1 then parts[0]
    else parts[0] + [c] + Join(parts[1..], c)
  }

  /** A join ends in its last part, with the separator just before it when
      there are several parts. */
  lemma {:induction false} JoinEndsWithLast(parts: seq<string>, c: char)
    requires |parts| >= 1
    ensures var j := Join(parts, c);
            var l := parts[|parts| - 1];
            && |l| <= |j| && j[|j| - |l|..] == l
            && (|parts| > 1 ==> |l| < |j| && j[|j| - |l| - 1] == c)
    decreases |parts|
  {
    if |parts| > 1 {
      var rest := Join(parts[1..], c);
      var l := parts[|parts| - 1];
      JoinEndsWithLast(parts[1..], c);
      assert Join(parts, c) == parts[0] + [c] + rest;
      if |parts| == 2 {
        assert rest == l;
      }
    }
  }

  /** Joining the pieces of a split gives the original string back. */
  lemma {:induction false} JoinSplit(s: string, c: char)
    ensures Join(Split(s, c), c) == s
    decreases |s|
  {
    if |s| > 0 {
      var rest := Split(s[1..], c);
      JoinSplit(s[1..], c);
      if s[0] == c {
        assert Split(s, c) == [""] + rest;
        if |rest| == 1 {
          assert Join([""] + rest, c) == "" + [c] + rest[0];
        } else {
          assert ([""] + rest)[1..] == rest;
        }
      } else {
        var head := [s[0]] + rest[0];
        assert Split(s, c) == [head] + rest[1..];
        if |rest| == 1 {
          assert Join([head], c) == head;
        } else {
          assert ([head] + rest[1..])[1..] == rest[1..];
          assert Join(rest, c) == rest[0] + [c] + Join(rest[1..], c);
        }
      }
    }
  }

  /** `sep` occurs in `s` starting at index `j`. */
  predicate OccursAt(s: string, sep: string, j: int) {
    0 <= j && j + |sep| <= |s| && s[j..j + |sep|] == sep
  }

  /** Index of the first occurrence of `sep` in `s`, if any. */
  function FindFirst(s: string, sep: string): (r: Option<nat>)
    ensures r.Some? ==> OccursAt(s, sep, r.value)
    ensures r.Some? ==> forall j :: 0 <= j < r.value ==> !OccursAt(s, sep, j)
    ensures r.None? ==> forall j :: !OccursAt(s, sep, j)
    decreases |s|
  {
    if |s| < |sep| then None
    else if s[..|sep|] == sep then Some(0)
    else
      var t := s[1..];
      assert forall j :: 1 <= j ==> (OccursAt(s, sep, j) <==> OccursAt(t, sep, j - 1)) by {
        forall j | 1 <= j ensures OccursAt(s, sep, j) <==> OccursAt(t, sep, j - 1) {
          if j + |sep| <= |s| {
            var a, b := s[j..j + |sep|], t[j - 1..j - 1 + |sep|];
            forall k | 0 <= k < |sep| ensures a[k] == b[k] {
              assert a[k] == s[j + k] && b[k] == t[j - 1 + k];
            }
            assert a == b;
          }
        }
      }
      match FindFirst(t, sep)
      case None => None
      case Some(k) => Some(k + 1)
  }

  /** Python's `s.partition(sep)`: the text before the first `sep`, whether it
      was found, and the text after it; `(s, false, "")` when absent. */
  function Partition(s: string, sep: string): (r: (string, bool, string))
    ensures r.1 ==> s == r.0 + sep + r.2
    ensures !r.1 ==> r.0 == s && r.2 == "" && forall j :: !OccursAt(s, sep, j)
    ensures r.1 ==> forall j :: 0 <= j < |r.0| ==> !OccursAt(s, sep, j)
  {
    match FindFirst(s, sep)
    case None => (s, false, "")
    case Some(i) =>
      assert s == s[..i] + sep + s[i + |sep|..];
      (s[..i], true, s[i + |sep|..])
  }

  /** `s.partition(c)` for a one-character separator. */
  function PartitionChar(s: string, c: char): (r: (string, bool, string))
    ensures r.1 ==> s == r.0 + [c] + r.2 && !Contains(r.0, c)
    ensures !r.1 ==> r == (s, false, "") && !Contains(s, c)
    ensures r.1 <==> Contains(s, c)
    decreases |s|
  {
    if |s| == 0 then (s, false, "")
    else if s[0] == c then ("", true, s[1..])
    else
      var (a, found, b) := PartitionChar(s[1..], c);
      assert !Contains([s[0]] + a, c) by {
        forall i | 0 <= i < |[s[0]] + a| ensures ([s[0]] + a)[i] != c {
          if i > 0 { assert ([s[0]] + a)[i] == a[i - 1]; }
        }
      }
      if found then
        assert s == [s[0]] + (a + [c] + b);
        ([s[0]] + a, found, b)
      else (s, false, "")
  }

  /** Partitioning `a + [c] + b` at `c` gives back `a` and `b` when `a`
      holds no `c`. */
  lemma {:induction false} PartitionCharRecovers(a: string, c: char, b: string)
    requires !Contains(a, c)
    ensures PartitionChar(a + [c] + b, c) == (a, true, b)
    decreases |a|
  {
    if |a| == 0 {
      assert a + [c] + b == [c] + b;
    } else {
      assert (a + [c] + b)[1..] == a[1..] + [c] + b;
      assert !Contains(a[1..], c) by {
        forall i | 0 <= i < |a[1..]| ensures a[1..][i] != c {
          assert a[1..][i] == a[i + 1];
        }
      }
      PartitionCharRecovers(a[1..], c, b);
      assert [a[0]] + a[1..] == a;
    }
  }

  /** When `sep` does not occur before the end of `a`, partitioning
      `a + sep + b` at `sep` gives back `a` and `b`. */
  lemma PartitionRecovers(a: string, sep: string, b: string)
    requires forall j :: 0 <= j < |a| ==> !OccursAt(a + sep + b, sep, j)
    ensures Partition(a + sep + b, sep) == (a, true, b)
  {
    var s := a + sep + b;
    assert s[|a|..|a| + |sep|] == sep;
    assert OccursAt(s, sep, |a|);
    var r := Partition(s, sep);
    assert r.1;
    assert OccursAt(s, sep, |r.0|) by {
      assert s[|r.0|..|r.0| + |sep|] == sep;
    }
    assert r.0 == s[..|a|] == a;
    assert r.2 == s[|a| + |sep|..] == b;
  }

  /** Python's argument-less `s.split()`: the maximal runs of non-whitespace. */
  function SplitWhitespace(s: string): (r: seq<string>)
    ensures forall k :: 0 <= k < |r| ==> |r[k]| > 0
    ensures forall k, i :: 0 <= k < |r| && 0 <= i < |r[k]| ==> !IsSpace(r[k][i])
    decreases |s|
  {
    if |s| == 0 then []
    else if IsSpace(s[0]) then SplitWhitespace(s[1..])
    else
      var w := Word(s);
      [w] + SplitWhitespace(s[|w|..])
  }

  /** The leading run of non-whitespace characters of `s`. */
  function Word(s: string): (w: string)
    ensures |w| <= |s| && w == s[..|w|]
    ensures forall i :: 0 <= i < |w| ==> !IsSpace(w[i])
    ensures |s| > 0 && !IsSpace(s[0]) ==> |w| > 0
    ensures |w| == |s| || IsSpace(s[|w|])
    decreases |s|
  {
    if |s| == 0 || IsSpace(s[0]) then "" else [s[0]] + Word(s[1..])
  }

  /** Python's `<=` on strings: code-point lexicographic order. */
  predicate LexLe(a: string, b: string)
    decreases |a|
  {
    if |a| == 0 then true
    else if |b| == 0 then false
    else if a[0] != b[0] then a[0] < b[0]
    else LexLe(a[1..], b[1..])
  }

  lemma {:induction false} LexLeTotal(a: string, b: string)
    ensures LexLe(a, b) || LexLe(b, a)
    decreases |a|
  {
    if |a| > 0 && |b| > 0 && a[0] == b[0] {
      LexLeTotal(a[1..], b[1..]);
    }
  }

  lemma {:induction false} LexLeTransitive(a: string, b: string, c: string)
    requires LexLe(a, b) && LexLe(b, c)
    ensures LexLe(a, c)
    decreases |a|
  {
    if |a| > 0 && |b| > 0 && |c| > 0 && a[0] == b[0] && b[0] == c[0] {
      LexLeTransitive(a[1..], b[1..], c[1..]);
    }
  }

  lemma {:induction false} LexLeAntisymmetric(a: string, b: string)
    requires LexLe(a, b) && LexLe(b, a)
    ensures a == b
    decreases |a|
  {
    if |a| > 0 && |b| > 0 {
      LexLeAntisymmetric(a[1..], b[1..]);
      assert a == [a[0]] + a[1..];
      assert b == [b[0]] + b[1..];
    }
  }

  function DigitChar(d: nat): char
    requires d < 10
  {
    (d + '0' as int) as char
  }

  predicate IsDigit(ch: char) {
    '0' <= ch <= '9'
  }

  /** Python's `str(n)` for a natural number. */
  function NatToString(n: nat): (r: string)
    ensures |r| > 0 && forall i :: 0 <= i < |r| ==> IsDigit(r[i])
    decreases n
  {
    if n < 10 then [DigitChar(n)] else NatToString(n / 10) + [DigitChar(n % 10)]
  }

  /** Python's `str(i)` (and `"{}".format(i)`) for an integer. */
  function IntToString(i: int): string {
    if i < 0 then "-" + NatToString(-i) else NatToString(i)
  }

  /** The value of a run of decimal digits, most significant first. */
  function DigitsValue(ds: string): nat
    requires forall i :: 0 <= i < |ds| ==> IsDigit(ds[i])
    decreases |ds|
  {
    if |ds| == 0 then 0
    else
      assert IsDigit(ds[|ds| - 1]);
      DigitsValue(ds[..|ds| - 1]) * 10 + (ds[|ds| - 1] as int - '0' as int)
  }

  lemma {:induction false} DigitsValueOfNatToString(n: nat)
    ensures DigitsValue(NatToString(n)) == n
    decreases n
  {
    if n >= 10 {
      var s := NatToString(n);
      DigitsValueOfNatToString(n / 10);
      assert s[..|s| - 1] == NatToString(n / 10);
    }
  }

  predicate AllDigits(s: string) {
    |s| > 0 && forall i :: 0 <= i < |s| ==> IsDigit(s[i])
  }

  /** An `int()` literal once stripped: an optional sign and at least one
      ASCII digit. */
  predicate IntLiteral(t: string) {
    AllDigits(t) || (|t| > 0 && (t[0] == '-' || t[0] == '+') && AllDigits(t[1..]))
  }

  /** The digits of such a literal, its sign removed. */
  function LiteralDigits(t: string): (ds: string)
    requires IntLiteral(t)
    ensures AllDigits(ds)
  {
    if AllDigits(t) then t else t[1..]
  }

  /** Python's `int(s)` on text: surrounding whitespace, an optional sign and
      at least one ASCII digit; anything else is a `ValueError` (`None`). */
  function ParseInt(s: string): (r: Option<int>)
    ensures r.Some? <==> IntLiteral(Strip(s))
    ensures r.Some? ==> (if r.value < 0 then -r.value else r.value) == DigitsValue(LiteralDigits(Strip(s)))
    ensures r.Some? && r.value < 0 ==> Strip(s)[0] == '-'
    ensures r.Some? && Strip(s)[0] == '-' ==> r.value <= 0
  {
    var t := Strip(s);
    if |t| > 0 && (t[0] == '-' || t[0] == '+') && AllDigits(t[1..]) then
      var v: int := if t[0] == '-' then -(DigitsValue(t[1..]) as int) else DigitsValue(t[1..]);
      Some(v)
    else if AllDigits(t) then Some(DigitsValue(t))
    else None
  }

  /** `int(str(i)) == i`: decimal rendering and parsing are inverse. */
  lemma IntRoundTrip(i: int)
    ensures ParseInt(IntToString(i)) == Some(i)
  {
    var s := IntToString(i);
    if i < 0 {
      DigitsValueOfNatToString(-i);
      assert s[1..] == NatToString(-i);
      assert Strip(s) == s;
    } else {
      DigitsValueOfNatToString(i);
      assert Strip(s) == s;
    }
  }
}
