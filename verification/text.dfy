/**
 * Text helpers shared by the date parser and the URL lemmas: splitting a
 * string at a separator character (Rust's `str::split` with a `char`
 * pattern), joining pieces back, and decimal digit strings.
 */
module Text {

  /** Splits `s` at every `sep`; like `str::split`, it always yields at least one piece. */
  function Split(s: string, sep: char): (pieces: seq<string>)
    ensures |pieces| >= 1
    ensures forall i :: 0 <= i < |pieces| ==> sep !in pieces[i]
    decreases |s|
  {
    if |s| == 0 then [""]
    else
      var tail := Split(s[1..], sep);
      if s[0] == sep then [""] + tail
      else [[s[0]] + tail[0]] + tail[1..]
  }

  /** Joins non-empty `pieces` with `sep` between consecutive ones. */
  function Join(pieces: seq<string>, sep: char): string
    requires |pieces| >= 1
  {
    if |pieces| == 1 then pieces[0]
    else pieces[0] + [sep] + Join(pieces[1..], sep)
  }

  /** Joining what Split produced gives the original string back. */
  lemma {:induction false} JoinSplit(s: string, sep: char)
    ensures Join(Split(s, sep), sep) == s
    decreases |s|
  {
    if |s| > 0 {
      var tail := Split(s[1..], sep);
      JoinSplit(s[1..], sep);
      if s[0] == sep {
        assert ([""] + tail)[1..] == tail;
      } else {
        var pieces := [[s[0]] + tail[0]] + tail[1..];
        if |tail| > 1 {
          assert pieces[1..] == tail[1..];
        }
      }
    }
  }

  /** Splitting a string whose first part has no separator extends the first piece. */
  lemma {:induction false} SplitPrefix(a: string, t: string, sep: char)
    requires sep !in a
    ensures Split(a + t, sep) == [a + Split(t, sep)[0]] + Split(t, sep)[1..]
    decreases |a|
  {
    if |a| > 0 {
      assert (a + t)[0] == a[0];
      assert (a + t)[1..] == a[1..] + t;
      SplitPrefix(a[1..], t, sep);
      assert [a[0]] + (a[1..] + Split(t, sep)[0]) == a + Split(t, sep)[0];
    } else {
      var rest := Split(t, sep);
      assert a + t == t && a + rest[0] == rest[0];
      assert rest == [rest[0]] + rest[1..];
    }
  }

  /** Splitting a joined list of separator-free pieces gives the pieces back. */
  lemma {:induction false} SplitJoin(pieces: seq<string>, sep: char)
    requires |pieces| >= 1
    requires forall i :: 0 <= i < |pieces| ==> sep !in pieces[i]
    ensures Split(Join(pieces, sep), sep) == pieces
    decreases |pieces|
  {
    if |pieces| == 1 {
      SplitPrefix(pieces[0], "", sep);
      assert pieces[0] + "" == pieces[0];
    } else {
      var rest := Join(pieces[1..], sep);
      SplitJoin(pieces[1..], sep);
      assert Join(pieces, sep) == pieces[0] + ([sep] + rest);
      SplitPrefix(pieces[0], [sep] + rest, sep);
      assert ([sep] + rest)[1..] == rest;
      assert Split([sep] + rest, sep) == [""] + pieces[1..];
      assert pieces[0] + "" == pieces[0];
      assert pieces == [pieces[0]] + pieces[1..];
    }
  }

  /** A sequence that starts with `p` agrees with `p` on every shorter prefix and every index of `p`. */
  lemma PrefixAgrees<T>(s: seq<T>, p: seq<T>, n: nat)
    requires |p| <= |s| && s[..|p|] == p && n < |p|
    ensures s[..n] == p[..n] && s[n] == p[n]
  {
    assert s[..n] == s[..|p|][..n];
    assert s[n] == s[..|p|][n];
  }

  /** Join of a list of pieces taken one at a time from the front. */
  lemma JoinCons(head: string, tail: seq<string>, sep: char)
    requires |tail| >= 1
    ensures Join([head] + tail, sep) == head + [sep] + Join(tail, sep)
  {
    assert ([head] + tail)[1..] == tail;
  }

  /** Join of a list of pieces extended at the back. */
  lemma {:induction false} JoinSnoc(init: seq<string>, last: string, sep: char)
    requires |init| >= 1
    ensures Join(init + [last], sep) == Join(init, sep) + [sep] + last
    decreases |init|
  {
    if |init| == 1 {
      assert init + [last] == [init[0], last];
    } else {
      JoinSnoc(init[1..], last, sep);
      assert (init + [last])[1..] == init[1..] + [last];
    }
  }

  /**
   * Join of five pieces, the last four each a name and a value, written out
   * with each separator glued to the name that follows it.
   */
  lemma JoinFive(t: string, n2: string, v2: string, n3: string, v3: string,
                 n4: string, v4: string, n5: string, v5: string, sep: char)
    ensures Join([t, n2 + v2, n3 + v3, n4 + v4, n5 + v5], sep)
      == t + ([sep] + n2) + v2 + ([sep] + n3) + v3 + ([sep] + n4) + v4 + ([sep] + n5) + v5
  {
    var p := [t, n2 + v2, n3 + v3, n4 + v4, n5 + v5];
    assert p[..1] == [t];
    JoinSnoc(p[..1], p[1], sep);
    assert p[..1] + [p[1]] == p[..2];
    Regroup(t, [sep], n2, v2);
    var t2 := t + ([sep] + n2) + v2;
    JoinSnoc(p[..2], p[2], sep);
    assert p[..2] + [p[2]] == p[..3];
    Regroup(t2, [sep], n3, v3);
    var t3 := t2 + ([sep] + n3) + v3;
    JoinSnoc(p[..3], p[3], sep);
    assert p[..3] + [p[3]] == p[..4];
    Regroup(t3, [sep], n4, v4);
    var t4 := t3 + ([sep] + n4) + v4;
    JoinSnoc(p[..4], p[4], sep);
    assert p[..4] + [p[4]] == p;
    Regroup(t4, [sep], n5, v5);
  }

  /** Concatenation is associative. */
  lemma Assoc(a: string, b: string, c: string)
    ensures a + b + c == a + (b + c)
  {
  }

  /** Moves the boundary between two concatenated strings. */
  lemma Regroup(x: string, s: string, t: string, y: string)
    ensures (x + s) + (t + y) == (x + (s + t)) + y
  {
  }

  predicate IsDigit(c: char) {
    '0' <= c <= '9'
  }

  predicate IsDigits(s: string) {
    forall i :: 0 <= i < |s| ==> IsDigit(s[i])
  }

  function DigitValue(c: char): nat
    requires IsDigit(c)
  {
    c as int - '0' as int
  }

  function DigitChar(n: nat): char
    requires n < 10
  {
    ('0' as int + n) as char
  }

  /** The number a decimal digit string denotes, most significant digit first. */
  function DigitsValue(s: string): nat
    requires IsDigits(s)
    decreases |s|
  {
    if |s| == 0 then 0
    else 10 * DigitsValue(s[..|s| - 1]) + DigitValue(s[|s| - 1])
  }

  function Pow10(n: nat): nat {
    if n == 0 then 1 else 10 * Pow10(n - 1)
  }

  /** Powers of ten grow with the exponent. */
  lemma {:induction false} Pow10Monotone(a: nat, b: nat)
    requires a <= b
    ensures Pow10(a) <= Pow10(b)
    decreases b - a
  {
    if a < b {
      Pow10Monotone(a, b - 1);
    }
  }

  /** `n` written with exactly `width` decimal digits, zero-padded on the left. */
  function PadDigits(n: nat, width: nat): string
    decreases width
  {
    if width == 0 then "" else PadDigits(n / 10, width - 1) + [DigitChar(n % 10)]
  }

  /** A digit string of width `n` denotes a number below 10^n. */
  lemma {:induction false} DigitsValueBound(s: string)
    requires IsDigits(s)
    ensures DigitsValue(s) < Pow10(|s|)
    decreases |s|
  {
    if |s| > 0 {
      DigitsValueBound(s[..|s| - 1]);
    }
  }

  /** A zero-padded rendering is a digit string of the given width that reads back as `n`. */
  lemma {:induction false} PadDigitsValue(n: nat, width: nat)
    requires n < Pow10(width)
    ensures |PadDigits(n, width)| == width
    ensures IsDigits(PadDigits(n, width))
    ensures DigitsValue(PadDigits(n, width)) == n
    decreases width
  {
    if width > 0 {
      assert n / 10 < Pow10(width - 1);
      PadDigitsValue(n / 10, width - 1);
      var p := PadDigits(n / 10, width - 1);
      var s := p + [DigitChar(n % 10)];
      assert s[..|s| - 1] == p;
      assert DigitValue(s[|s| - 1]) == n % 10;
    }
  }

  /** The value of a two-digit string, digit by digit. */
  lemma TwoDigits(a: char, b: char)
    requires IsDigit(a) && IsDigit(b)
    ensures IsDigits([a, b])
    ensures DigitsValue([a, b]) == 10 * DigitValue(a) + DigitValue(b)
  {
    assert [a, b][..1] == [a];
    assert [a][..0] == [];
    assert DigitsValue([a]) == 10 * DigitsValue([]) + DigitValue(a);
    assert DigitsValue([a, b]) == 10 * DigitsValue([a]) + DigitValue(b);
  }

  /** The value of a four-digit string, digit by digit. */
  lemma FourDigits(a: char, b: char, c: char, d: char)
    requires IsDigit(a) && IsDigit(b) && IsDigit(c) && IsDigit(d)
    ensures IsDigits([a, b, c, d])
    ensures DigitsValue([a, b, c, d]) == 1000 * DigitValue(a) + 100 * DigitValue(b) + 10 * DigitValue(c) + DigitValue(d)
  {
    assert [a, b, c, d][..3] == [a, b, c];
    assert [a, b, c][..2] == [a, b];
    TwoDigits(a, b);
    assert DigitsValue([a, b, c]) == 10 * DigitsValue([a, b]) + DigitValue(c);
    assert DigitsValue([a, b, c, d]) == 10 * DigitsValue([a, b, c]) + DigitValue(d);
  }
}
