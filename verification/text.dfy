/** The string primitives the editors and the server rely on, with JavaScript's
    meaning: `trim`, `split` on one character, `startsWith`, an unanchored
    substring test, ASCII lower-casing, the `\s+` run collapse of the upload
    name rule, and the decimal rendering of a millisecond timestamp. */
module Text {

  /** The characters JavaScript's `\s` class and `String.prototype.trim` treat as
      white space: the ASCII controls tab to carriage return, space, no-break space,
      the byte-order mark, the line and paragraph separators and the Unicode space
      separators. */
  predicate IsWhitespace(c: char)
  {
    || c == ' ' || c == '\t' || c == '\n' || c == '\r' || c == '\U{000B}' || c == '\U{000C}'
    || c == '\U{00A0}' || c == '\U{1680}' || ('\U{2000}' <= c <= '\U{200A}')
    || c == '\U{2028}' || c == '\U{2029}' || c == '\U{202F}' || c == '\U{205F}'
    || c == '\U{3000}' || c == '\U{FEFF}'
  }

  predicate NoWhitespace(s: string)
  {
    forall k :: 0 <= k < |s| ==> !IsWhitespace(s[k])
  }

  /** Length of the white-space run that starts `s`. */
  function LeadingSpace(s: string): (n: nat)
    ensures n <= |s|
    ensures forall k :: 0 <= k < n ==> IsWhitespace(s[k])
    ensures n < |s| ==> !IsWhitespace(s[n])
  {
    if |s| == 0 || !IsWhitespace(s[0]) then 0 else 1 + LeadingSpace(s[1..])
  }

  /** Length of the white-space run that ends `s`. */
  function TrailingSpace(s: string): (n: nat)
    ensures n <= |s|
    ensures forall k :: |s| - n <= k < |s| ==> IsWhitespace(s[k])
    ensures n < |s| ==> !IsWhitespace(s[|s| - n - 1])
  {
    if |s| == 0 || !IsWhitespace(s[|s| - 1]) then 0 else 1 + TrailingSpace(s[..|s| - 1])
  }

  /** `s.trim()`: the slice of `s` left after removing white space at both ends. */
  function Trim(s: string): (r: string)
    ensures r == "" || (!IsWhitespace(r[0]) && !IsWhitespace(r[|r| - 1]))
    ensures |r| <= |s|
    ensures LeadingSpace(s) + |r| <= |s| && r == s[LeadingSpace(s)..LeadingSpace(s) + |r|]
    ensures r == "" <==> forall k :: 0 <= k < |s| ==> IsWhitespace(s[k])
  {
    var a := LeadingSpace(s);
    var rest := s[a..];
    var b := TrailingSpace(rest);
    if a == |s| then ""
    else
      assert rest[0] == s[a] && !IsWhitespace(rest[0]);
      assert b < |rest|;
      rest[..|rest| - b]
  }

  /** Trimming is idempotent, and a string with no white space at either end is
      its own trim. */
  lemma TrimIdempotent(s: string)
    ensures Trim(Trim(s)) == Trim(s)
  {
    var t := Trim(s);
    if t != "" {
      assert LeadingSpace(t) == 0;
      var u := Trim(t);
      assert TrailingSpace(t) == 0;
    }
  }

  /** `s.startsWith(p)`. */
  predicate StartsWith(s: string, p: string)
  {
    |p| <= |s| && s[..|p|] == p
  }

  /** `sub` occurs somewhere in `s`: what an unanchored regular expression made of
      literal letters tests. */
  predicate Contains(s: string, sub: string)
    decreases |s|
  {
    StartsWith(s, sub) || (|s| > 0 && Contains(s[1..], sub))
  }

  /** `Contains` holds exactly when `sub` is some slice of `s`. */
  lemma {:induction false} ContainsAt(s: string, sub: string, k: nat)
    requires k + |sub| <= |s| && s[k..k + |sub|] == sub
    ensures Contains(s, sub)
    decreases k
  {
    if k == 0 {
      assert s[..|sub|] == sub;
    } else {
      assert s[1..][k - 1..k - 1 + |sub|] == s[k..k + |sub|];
      ContainsAt(s[1..], sub, k - 1);
    }
  }

  /** Every white-space run replaced by one `-`: `s.replace(/\s+/g, '-')`. */
  function CollapseWhitespace(s: string): (r: string)
    ensures NoWhitespace(r)
    ensures |r| <= |s|
    decreases |s|
  {
    if |s| == 0 then ""
    else if IsWhitespace(s[0]) then
      var n := LeadingSpace(s);
      "-" + CollapseWhitespace(s[n..])
    else
      [s[0]] + CollapseWhitespace(s[1..])
  }

  /** The collapse changes a name exactly when the name holds white space. */
  lemma {:induction false} CollapseIdentityIff(s: string)
    ensures CollapseWhitespace(s) == s <==> NoWhitespace(s)
    decreases |s|
  {
    if |s| == 0 {
    } else if IsWhitespace(s[0]) {
      assert !NoWhitespace(s);
    } else {
      CollapseIdentityIff(s[1..]);
      assert NoWhitespace(s) <==> NoWhitespace(s[1..]) by {
        if NoWhitespace(s[1..]) {
          forall k | 0 <= k < |s| ensures !IsWhitespace(s[k]) {
            if k > 0 { assert s[k] == s[1..][k - 1]; }
          }
        }
      }
      assert CollapseWhitespace(s) == [s[0]] + CollapseWhitespace(s[1..]);
      assert s == [s[0]] + s[1..];
    }
  }

  /** Collapsing twice is collapsing once. */
  lemma CollapseIdempotent(s: string)
    ensures CollapseWhitespace(CollapseWhitespace(s)) == CollapseWhitespace(s)
  {
    CollapseIdentityIff(CollapseWhitespace(s));
  }

  /** The characters of `s` that are neither white space nor `-`, in order. */
  function Solid(s: string): (r: string)
    ensures forall k :: 0 <= k < |r| ==> !IsWhitespace(r[k]) && r[k] != '-'
  {
    if |s| == 0 then ""
    else if IsWhitespace(s[0]) || s[0] == '-' then Solid(s[1..])
    else [s[0]] + Solid(s[1..])
  }

  /** A white-space run contributes nothing to `Solid`. */
  lemma {:induction false} SolidSkipsSpace(s: string, n: nat)
    requires n <= |s|
    requires forall k :: 0 <= k < n ==> IsWhitespace(s[k])
    ensures Solid(s) == Solid(s[n..])
    decreases n
  {
    if n > 0 {
      SolidSkipsSpace(s[1..], n - 1);
      assert s[1..][n - 1..] == s[n..];
    }
  }

  /** The collapse keeps every character other than white space and `-`, in order:
      only the separators change. */
  lemma {:induction false} CollapseKeepsContent(s: string)
    ensures Solid(CollapseWhitespace(s)) == Solid(s)
    decreases |s|
  {
    if |s| == 0 {
    } else if IsWhitespace(s[0]) {
      var n := LeadingSpace(s);
      CollapseKeepsContent(s[n..]);
      SolidSkipsSpace(s, n);
      var r := CollapseWhitespace(s);
      assert r == "-" + CollapseWhitespace(s[n..]);
      assert r[1..] == CollapseWhitespace(s[n..]);
    } else {
      CollapseKeepsContent(s[1..]);
      var r := CollapseWhitespace(s);
      assert r[1..] == CollapseWhitespace(s[1..]);
    }
  }

  /** `s.split(sep)`: the pieces between occurrences of `sep`, always at least one. */
  function Split(s: string, sep: char): (parts: seq<string>)
    ensures |parts| >= 1
    ensures forall p :: p in parts ==> sep !in p
    ensures sep !in s ==> parts == [s]
    ensures sep in s ==> |parts| >= 2
    decreases |s|
  {
    if |s| == 0 then [""]
    else
      var rest := Split(s[1..], sep);
      if s[0] == sep then [""] + rest
      else
        assert sep !in s[1..] ==> rest == [s[1..]];
        assert sep !in s ==> [s[0]] + s[1..] == s;
        [[s[0]] + rest[0]] + rest[1..]
  }

  /** The pieces glued back together with `sep`: `parts.join(sep)`. */
  function Join(parts: seq<string>, sep: char): (s: string)
    requires |parts| >= 1
  {
    if |parts| == 1 then parts[0] else parts[0] + [sep] + Join(parts[1..], sep)
  }

  /** Splitting loses nothing: joining the pieces gives back the input. */
  lemma {:induction false} JoinSplit(s: string, sep: char)
    ensures Join(Split(s, sep), sep) == s
    decreases |s|
  {
    if |s| > 0 {
      var rest := Split(s[1..], sep);
      JoinSplit(s[1..], sep);
      if s[0] == sep {
        assert Split(s, sep)[1..] == rest;
        assert s == [sep] + s[1..];
      } else if |rest| == 1 {
        assert s == [s[0]] + s[1..];
      } else {
        var parts := Split(s, sep);
        assert parts[1..] == rest[1..];
        assert Join(rest, sep) == rest[0] + [sep] + Join(rest[1..], sep);
        assert s == [s[0]] + s[1..];
      }
    }
  }

  /** Splitting a join of separator-free pieces gives back the pieces. */
  lemma {:induction false} SplitJoin(parts: seq<string>, sep: char)
    requires |parts| >= 1
    requires forall k :: 0 <= k < |parts| ==> sep !in parts[k]
    ensures Split(Join(parts, sep), sep) == parts
    decreases |parts|
  {
    if |parts| == 1 {
    } else {
      SplitJoin(parts[1..], sep);
      SplitPrefix(parts[0], sep, Join(parts[1..], sep));
      assert parts == [parts[0]] + parts[1..];
    }
  }

  /** A separator-free piece followed by the separator splits off as the first part. */
  lemma {:induction false} SplitPrefix(p: string, sep: char, tail: string)
    requires sep !in p
    ensures Split(p + [sep] + tail, sep) == [p] + Split(tail, sep)
    decreases |p|
  {
    var s := p + [sep] + tail;
    if |p| == 0 {
      SplitAtSep(s, sep);
      assert s[1..] == tail;
    } else {
      assert s[0] == p[0] && s[0] != sep;
      assert s[1..] == p[1..] + [sep] + tail;
      SplitPrefix(p[1..], sep, tail);
      SplitAtOther(s, sep);
      assert [s[0]] + p[1..] == p;
    }
  }

  lemma SplitAtSep(s: string, sep: char)
    requires |s| > 0 && s[0] == sep
    ensures Split(s, sep) == [""] + Split(s[1..], sep)
  {
  }

  lemma SplitAtOther(s: string, sep: char)
    requires |s| > 0 && s[0] != sep
    ensures Split(s, sep) == [[s[0]] + Split(s[1..], sep)[0]] + Split(s[1..], sep)[1..]
  {
  }

  /** The piece of `s` after the first `sep` (the second element of the split),
      when `s` holds `sep`. */
  lemma {:induction false} SplitSecond(p: string, sep: char, t: string)
    requires sep !in p && sep !in t
    ensures Split(p + [sep] + t, sep) == [p, t]
  {
    SplitPrefix(p, sep, t);
  }

  /** ASCII upper-case letters mapped to lower case, everything else kept. */
  function LowerChar(c: char): char
  {
    if 'A' <= c <= 'Z' then (c as int + 32) as char else c
  }

  /** `s.toLowerCase()` restricted to ASCII letters. */
  function ToLower(s: string): (r: string)
    ensures |r| == |s|
    ensures forall k :: 0 <= k < |s| ==> r[k] == LowerChar(s[k])
  {
    seq(|s|, k requires 0 <= k < |s| => LowerChar(s[k]))
  }

  predicate IsDigit(c: char)
  {
    '0' <= c <= '9'
  }

  function DigitChar(d: nat): (c: char)
    requires d < 10
    ensures IsDigit(c)
  {
    ('0' as int + d) as char
  }

  /** `String(n)` for a non-negative integer: decimal digits, no leading zero. */
  function Decimal(n: nat): (r: string)
    ensures |r| >= 1
    ensures forall k :: 0 <= k < |r| ==> IsDigit(r[k])
    ensures r[0] == '0' ==> n == 0
  {
    if n < 10 then [DigitChar(n)] else Decimal(n / 10) + [DigitChar(n % 10)]
  }

  /** The value of a string of decimal digits. */
  function ParseDecimal(s: string): nat
    requires forall k :: 0 <= k < |s| ==> IsDigit(s[k])
  {
    if |s| == 0 then 0
    else
      assert IsDigit(s[|s| - 1]);
      ParseDecimal(s[..|s| - 1]) * 10 + (s[|s| - 1] as int - '0' as int)
  }

  /** Reading back a rendered number gives the number. */
  lemma {:induction false} ParseDecimalInverse(n: nat)
    ensures ParseDecimal(Decimal(n)) == n
  {
    if n >= 10 {
      ParseDecimalInverse(n / 10);
      var r := Decimal(n);
      assert r[..|r| - 1] == Decimal(n / 10);
    }
  }
}
