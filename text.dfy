// The handful of Python string operations the solvers rely on:
// `str.split(sep)`, `str.rstrip()`, `str.strip()`, `str.startswith` and
// `str.replace`, `int(text)`, together with the decimal printing `str(n)`
// that `int` inverts.
module Text {
  import opened Wrappers

  predicate IsSpace(c: char) {
    c == ' ' || c == '\t' || c == '\n' || c == '\r' || c == 11 as char || c == 12 as char
  }

  predicate IsDigit(c: char) { '0' <= c <= '9' }

  predicate AllDigits(s: string) { forall i :: 0 <= i < |s| ==> IsDigit(s[i]) }

  /** `s.rstrip()`: drop trailing whitespace. */
  function RStrip(s: string): (r: string)
    ensures r <= s
    ensures |r| == 0 || !IsSpace(r[|r| - 1])
    ensures forall i :: |r| <= i < |s| ==> IsSpace(s[i])
  {
    if |s| > 0 && IsSpace(s[|s| - 1]) then RStrip(s[..|s| - 1]) else s
  }

  /** Dropping leading whitespace, the other half of `s.strip()`. */
  function LStrip(s: string): (r: string)
    ensures |r| <= |s| && r == s[|s| - |r|..]
    ensures |r| == 0 || !IsSpace(r[0])
    ensures forall i :: 0 <= i < |s| - |r| ==> IsSpace(s[i])
  {
    if |s| > 0 && IsSpace(s[0]) then LStrip(s[1..]) else s
  }

  function Strip(s: string): string { LStrip(RStrip(s)) }

  /** `s.startswith(p)`. */
  predicate StartsWith(s: string, p: string) { p <= s }

  /** `s.split(sep)` for a one-character separator: the pieces between separators. */
  function Split(s: string, sep: char): (r: seq<string>)
    ensures |r| >= 1
    ensures forall i :: 0 <= i < |r| ==> sep !in r[i]
  {
    if s == [] then [""]
    else
      var rest := Split(s[1..], sep);
      if s[0] == sep then [""] + rest
      else [[s[0]] + rest[0]] + rest[1..]
  }

  /** `sep.join(parts)`. */
  function Join(parts: seq<string>, sep: char): string
  {
    if |parts| == 0 then ""
    else if |parts| == 1 then parts[0]
    else parts[0] + [sep] + Join(parts[1..], sep)
  }

  /** Joining the pieces of a split gives the original string back. */
  lemma {:induction false} JoinSplit(s: string, sep: char)
    ensures Join(Split(s, sep), sep) == s
  {
    if s != [] {
      JoinSplit(s[1..], sep);
      var rest := Split(s[1..], sep);
      if s[0] != sep {
        if |rest| > 1 {
          assert Join(rest, sep) == rest[0] + [sep] + Join(rest[1..], sep);
        }
      }
    }
  }

  /**
   * `s.split(sep)` for a separator of several characters: scanning from the
   * left, each occurrence of `sep` not overlapping an earlier one ends a
   * piece.
   */
  function SplitText(s: string, sep: string): (r: seq<string>)
    requires |sep| > 0
    ensures |r| >= 1
    decreases |s|
  {
    if |s| == 0 then [""]
    else if sep <= s then [""] + SplitText(s[|sep|..], sep)
    else
      var rest := SplitText(s[1..], sep);
      [[s[0]] + rest[0]] + rest[1..]
  }

  /** `sep.join(parts)` for a separator of several characters. */
  function JoinText(parts: seq<string>, sep: string): string
  {
    if |parts| == 0 then ""
    else if |parts| == 1 then parts[0]
    else parts[0] + sep + JoinText(parts[1..], sep)
  }

  /** Joining the pieces of a split on a text separator gives the original string back. */
  lemma {:induction false} JoinSplitText(s: string, sep: string)
    requires |sep| > 0
    ensures JoinText(SplitText(s, sep), sep) == s
    decreases |s|
  {
    if |s| > 0 {
      if sep <= s {
        var rest := s[|sep|..];
        JoinSplitText(rest, sep);
        JoinTextCons("", SplitText(rest, sep), sep);
        PrefixRest(s, sep);
        assert "" + sep + rest == sep + rest;
      } else {
        var rest := SplitText(s[1..], sep);
        JoinSplitText(s[1..], sep);
        JoinTextFront(s[0], rest, sep);
        assert [s[0]] + s[1..] == s;
      }
    }
  }

  /** A string starting with `p` is `p` followed by the rest. */
  lemma PrefixRest(s: string, p: string)
    requires p <= s
    ensures s == p + s[|p|..]
  {
    assert s[..|p|] == p;
    assert s == s[..|p|] + s[|p|..];
  }

  lemma JoinTextCons(a: string, parts: seq<string>, sep: string)
    requires |parts| >= 1
    ensures JoinText([a] + parts, sep) == a + sep + JoinText(parts, sep)
  {
    assert ([a] + parts)[1..] == parts;
  }

  lemma JoinTextFront(c: char, parts: seq<string>, sep: string)
    requires |parts| >= 1
    ensures JoinText([[c] + parts[0]] + parts[1..], sep) == [c] + JoinText(parts, sep)
  {
    if |parts| > 1 {
      JoinTextCons([c] + parts[0], parts[1..], sep);
      assert [c] + parts[0] + sep + JoinText(parts[1..], sep) == [c] + (parts[0] + sep + JoinText(parts[1..], sep));
    }
  }

  /** Splitting a string without the separator gives that string alone. */
  lemma {:induction false} SplitNoSep(s: string, sep: char)
    requires sep !in s
    ensures Split(s, sep) == [s]
  {
    if s != [] {
      SplitNoSep(s[1..], sep);
      assert [s[0]] + s[1..] == s;
    }
  }

  /** Splitting a join of separator-free pieces gives the pieces back. */
  lemma {:induction false} SplitJoin(parts: seq<string>, sep: char)
    requires |parts| >= 1
    requires forall i :: 0 <= i < |parts| ==> sep !in parts[i]
    ensures Split(Join(parts, sep), sep) == parts
  {
    if |parts| == 1 {
      SplitNoSep(parts[0], sep);
    } else {
      SplitJoin(parts[1..], sep);
      SplitPrefix(parts[0], Join(parts[1..], sep), sep);
    }
  }

  lemma {:induction false} SplitPrefix(a: string, b: string, sep: char)
    requires sep !in a
    ensures Split(a + [sep] + b, sep) == [a] + Split(b, sep)
  {
    if a == [] {
      assert a + [sep] + b == [sep] + b;
      assert ([sep] + b)[1..] == b;
    } else {
      var w := a + [sep] + b;
      assert w[0] == a[0] && w[1..] == a[1..] + [sep] + b;
      SplitPrefix(a[1..], b, sep);
      assert [a[0]] + a[1..] == a;
    }
  }

  function DigitValue(c: char): nat requires IsDigit(c) { (c as int) - ('0' as int) }

  function DigitChar(d: nat): (c: char)
    requires d < 10
    ensures IsDigit(c) && DigitValue(c) == d
  {
    (('0' as int) + d) as char
  }

  /** The value of a string of decimal digits. */
  function DigitsValue(s: string): nat
    requires AllDigits(s)
  {
    if |s| == 0 then 0 else DigitsValue(s[..|s| - 1]) * 10 + DigitValue(s[|s| - 1])
  }

  /** `str(n)` for a natural number. */
  function ShowNat(n: nat): (r: string)
    ensures |r| >= 1 && AllDigits(r)
  {
    if n < 10 then [DigitChar(n)] else ShowNat(n / 10) + [DigitChar(n % 10)]
  }

  /** `str(n)`. */
  function ShowInt(n: int): string
  {
    if n < 0 then "-" + ShowNat(-n) else ShowNat(n)
  }

  /** One or more decimal digits. */
  function ParseDigits(d: string): Option<int>
  {
    if |d| > 0 && AllDigits(d) then Some(DigitsValue(d)) else None
  }

  /** An optional sign followed by digits. */
  function ParseSigned(t: string): Option<int>
  {
    if |t| > 0 && t[0] == '-' then
      match ParseDigits(t[1..])
      case Some(v) => Some(-v)
      case None => None
    else if |t| > 0 && t[0] == '+' then ParseDigits(t[1..])
    else ParseDigits(t)
  }

  /** `int(text)`: surrounding whitespace, an optional sign, then one or more digits. */
  function ParseInt(text: string): Option<int>
  {
    ParseSigned(Strip(text))
  }

  /** `list(map(int, parts))`: every piece must be an integer. */
  function ParseInts(parts: seq<string>): (r: Option<seq<int>>)
    ensures r.Some? <==> forall i :: 0 <= i < |parts| ==> ParseInt(parts[i]).Some?
    ensures r.Some? ==> |r.value| == |parts| && forall i :: 0 <= i < |parts| ==> ParseInt(parts[i]).value == r.value[i]
  {
    var xs := seq(|parts|, i requires 0 <= i < |parts| => ParseInt(parts[i]));
    assert |xs| == |parts| && forall i :: 0 <= i < |parts| ==> xs[i] == ParseInt(parts[i]);
    AllSome(xs)
  }

  /** Pieces that each read as the matching number read as the list of numbers. */
  lemma ParseIntsOf(parts: seq<string>, ns: seq<int>)
    requires |parts| == |ns| && forall i :: 0 <= i < |parts| ==> ParseInt(parts[i]) == Some(ns[i])
    ensures ParseInts(parts) == Some(ns)
  {
    var r := ParseInts(parts);
    assert r.Some?;
    assert r.value == ns;
  }

  lemma {:induction false} DigitsValueShowNat(n: nat)
    ensures DigitsValue(ShowNat(n)) == n
  {
    if n >= 10 {
      DigitsValueShowNat(n / 10);
      var s := ShowNat(n / 10) + [DigitChar(n % 10)];
      assert s[..|s| - 1] == ShowNat(n / 10);
    }
  }

  /** `int(str(n)) == n` for every integer. */
  lemma ParseShowInt(n: int)
    ensures ParseInt(ShowInt(n)) == Some(n)
  {
    var s := ShowInt(n);
    ShowIntEnds(n);
    NoSpaceStrip(s);
    if n < 0 {
      var m: nat := -n;
      assert s[0] == '-' && s[1..] == ShowNat(m);
      ParseDigitsShowNat(m);
    } else {
      var m: nat := n;
      assert s == ShowNat(m);
      ParseDigitsShowNat(m);
      assert IsDigit(s[0]);
    }
  }

  lemma ParseDigitsShowNat(m: nat)
    ensures ParseDigits(ShowNat(m)) == Some(m)
  {
    DigitsValueShowNat(m);
  }

  /** `str(n)` starts with a digit or '-' and ends with a digit. */
  lemma ShowIntEnds(n: int)
    ensures |ShowInt(n)| >= 1
    ensures IsDigit(ShowInt(n)[0]) || ShowInt(n)[0] == '-'
    ensures IsDigit(ShowInt(n)[|ShowInt(n)| - 1])
  {
  }

  /** `str(n)` holds no character other than digits and a leading '-'. */
  lemma ShowIntChars(n: int, c: char)
    requires !IsDigit(c) && c != '-'
    ensures c !in ShowInt(n)
  {
  }

  lemma NoSpaceStrip(s: string)
    requires |s| >= 1 && !IsSpace(s[0]) && !IsSpace(s[|s| - 1])
    ensures Strip(s) == s
  {
  }

  /**
   * `s.replace(pat, repl)`: scanning from the left, every occurrence of
   * `pat` that does not overlap an earlier one becomes `repl`.
   */
  function Replace(s: string, pat: string, repl: string): string
    requires |pat| > 0
    decreases |s|
  {
    if |s| == 0 then ""
    else if pat <= s then repl + Replace(s[|pat|..], pat, repl)
    else [s[0]] + Replace(s[1..], pat, repl)
  }

  /** Text that cannot start an occurrence is copied unchanged. */
  lemma {:induction false} ReplaceSkip(a: string, rest: string, pat: string, repl: string)
    requires |pat| > 0 && pat[0] !in a
    ensures Replace(a + rest, pat, repl) == a + Replace(rest, pat, repl)
  {
    if |a| > 0 {
      var w := a + rest;
      assert w[0] == a[0] && w[1..] == a[1..] + rest;
      assert !(pat <= w);
      assert Replace(w, pat, repl) == [a[0]] + Replace(a[1..] + rest, pat, repl);
      ReplaceSkip(a[1..], rest, pat, repl);
      assert [a[0]] + a[1..] == a;
      assert [a[0]] + (a[1..] + Replace(rest, pat, repl)) == a + Replace(rest, pat, repl);
    } else {
      assert a + rest == rest;
    }
  }

  /** A word whose second character rules out `pat`, and which holds `pat`'s first character only up front, is copied unchanged. */
  lemma ReplaceWord(w: string, rest: string, pat: string, repl: string)
    requires |w| >= 2 && |pat| >= 2 && w[1] != pat[1] && pat[0] !in w[1..]
    ensures Replace(w + rest, pat, repl) == w + Replace(rest, pat, repl)
  {
    var s := w + rest;
    assert s[1] == w[1];
    assert !(pat <= s);
    assert s[1..] == w[1..] + rest;
    ReplaceSkip(w[1..], rest, pat, repl);
    assert [w[0]] + w[1..] == w;
  }

  /** `pat` cannot start anywhere inside `w`, whatever follows it. */
  predicate NoHit(w: string, pat: string) {
    |pat| > 0 && (pat[0] !in w || (|w| >= 2 && |pat| >= 2 && w[1] != pat[1] && pat[0] !in w[1..]))
  }

  /** A word `pat` cannot start inside is copied unchanged. */
  lemma ReplaceNoHit(w: string, rest: string, pat: string, repl: string)
    requires NoHit(w, pat)
    ensures Replace(w + rest, pat, repl) == w + Replace(rest, pat, repl)
  {
    if pat[0] !in w {
      ReplaceSkip(w, rest, pat, repl);
    } else {
      ReplaceWord(w, rest, pat, repl);
    }
  }

  /** The words of `ws` written one after another. */
  function Concat(ws: seq<string>): (r: string)
    ensures |ws| == 1 ==> r == ws[0]
  {
    if |ws| == 0 then [] else if |ws| == 1 then ws[0] else Concat(ws[..|ws| - 1]) + ws[|ws| - 1]
  }

  /** Words `pat` cannot start inside are copied unchanged. */
  lemma {:induction false} ReplaceNoHitWords(ws: seq<string>, rest: string, pat: string, repl: string)
    requires |pat| > 0 && forall i :: 0 <= i < |ws| ==> NoHit(ws[i], pat)
    ensures Replace(Concat(ws) + rest, pat, repl) == Concat(ws) + Replace(rest, pat, repl)
  {
    if |ws| == 0 {
      assert Concat(ws) + rest == rest;
      assert Concat(ws) + Replace(rest, pat, repl) == Replace(rest, pat, repl);
    } else if |ws| == 1 {
      ReplaceNoHit(ws[0], rest, pat, repl);
    } else {
      var init, last := ws[..|ws| - 1], ws[|ws| - 1];
      var r := Replace(rest, pat, repl);
      assert forall i :: 0 <= i < |init| ==> NoHit(init[i], pat) by {
        forall i | 0 <= i < |init| ensures NoHit(init[i], pat) { assert init[i] == ws[i]; }
      }
      var front := Concat(init);
      assert Concat(ws) == front + last;
      ReplaceNoHitWords(init, last + rest, pat, repl);
      ReplaceNoHit(last, rest, pat, repl);
      calc {
        Replace(Concat(ws) + rest, pat, repl);
        { assert Concat(ws) + rest == front + (last + rest); }
        Replace(front + (last + rest), pat, repl);
        front + (last + r);
        { assert front + (last + r) == (front + last) + r; }
        Concat(ws) + r;
      }
    }
  }

  /** A word without `pat`'s second character, followed by text that does not start with it, is copied unchanged. */
  lemma {:induction false} ReplaceNoSecond(w: string, rest: string, pat: string, repl: string)
    requires |pat| >= 2 && pat[1] !in w && (|rest| == 0 || rest[0] != pat[1])
    ensures Replace(w + rest, pat, repl) == w + Replace(rest, pat, repl)
  {
    if |w| > 0 {
      var s := w + rest;
      assert s[1..] == w[1..] + rest;
      assert !(pat <= s) by {
        if |s| >= 2 {
          if |w| >= 2 { assert s[1] == w[1]; } else { assert s[1] == rest[0]; }
          assert s[1] != pat[1];
        }
      }
      assert Replace(s, pat, repl) == [w[0]] + Replace(w[1..] + rest, pat, repl);
      ReplaceNoSecond(w[1..], rest, pat, repl);
      assert [w[0]] + w[1..] == w;
      assert [w[0]] + (w[1..] + Replace(rest, pat, repl)) == w + Replace(rest, pat, repl);
    } else {
      assert w + rest == rest;
    }
  }

  /** Replacing a multi-character separator by one character turns its join into a join on that character. */
  lemma {:induction false} ReplaceJoinText(parts: seq<string>, sep: string, c: char)
    requires |sep| > 0 && forall i :: 0 <= i < |parts| ==> sep[0] !in parts[i]
    ensures Replace(JoinText(parts, sep), sep, [c]) == Join(parts, c)
  {
    if |parts| == 1 {
      ReplaceAbsent(parts[0], sep, [c]);
    } else if |parts| > 1 {
      var rest := JoinText(parts[1..], sep);
      ReplaceJoinText(parts[1..], sep, c);
      assert parts[0] + sep + rest == parts[0] + (sep + rest);
      ReplaceSkip(parts[0], sep + rest, sep, [c]);
      ReplaceHit(sep, rest, [c]);
      assert parts[0] + ([c] + Join(parts[1..], c)) == parts[0] + [c] + Join(parts[1..], c);
    }
  }

  /** An occurrence at the front is replaced. */
  lemma ReplaceHit(pat: string, rest: string, repl: string)
    requires |pat| > 0
    ensures Replace(pat + rest, pat, repl) == repl + Replace(rest, pat, repl)
  {
    assert pat <= pat + rest;
    assert (pat + rest)[|pat|..] == rest;
  }

  /** A string with no character of `pat`'s first is left as it is. */
  lemma ReplaceAbsent(s: string, pat: string, repl: string)
    requires |pat| > 0 && pat[0] !in s
    ensures Replace(s, pat, repl) == s
  {
    ReplaceSkip(s, "", pat, repl);
    assert s + "" == s;
  }

  /** Leading blanks in front of a word are dropped by `strip`. */
  lemma StripPadded(pad: string, s: string)
    requires forall i :: 0 <= i < |pad| ==> IsSpace(pad[i])
    requires |s| >= 1 && !IsSpace(s[0]) && !IsSpace(s[|s| - 1])
    ensures Strip(pad + s) == s
  {
    var w := pad + s;
    assert !IsSpace(w[|w| - 1]);
    assert RStrip(w) == w;
    var l := LStrip(w);
    assert !IsSpace(w[|pad|]);
    assert |w| - |l| <= |pad|;
    assert |l| == 0 || l[0] == w[|w| - |l|];
    assert l == w[|pad|..];
    assert w[|pad|..] == s;
  }

  /** Blanks in front of text that neither starts nor ends with a blank do not change what it reads as. */
  lemma ParseStripped(pad: string, s: string)
    requires forall i :: 0 <= i < |pad| ==> IsSpace(pad[i])
    requires |s| >= 1 && !IsSpace(s[0]) && !IsSpace(s[|s| - 1])
    ensures ParseInt(pad + s) == ParseInt(s)
  {
    StripPadded(pad, s);
    StripPadded("", s);
    assert "" + s == s;
  }

  /** `int(text)` skips blanks written in front of a number. */
  lemma ParsePadded(pad: string, n: int)
    requires forall i :: 0 <= i < |pad| ==> IsSpace(pad[i])
    ensures ParseInt(pad + ShowInt(n)) == Some(n)
  {
    ShowIntEnds(n);
    ParseStripped(pad, ShowInt(n));
    ParseShowInt(n);
  }

  /** A character that is neither the separator nor in any piece is not in the join. */
  lemma {:induction false} JoinAvoids(parts: seq<string>, sep: char, c: char)
    requires c != sep && forall i :: 0 <= i < |parts| ==> c !in parts[i]
    ensures c !in Join(parts, sep)
  {
    if |parts| > 1 {
      JoinAvoids(parts[1..], sep, c);
    }
  }
}
