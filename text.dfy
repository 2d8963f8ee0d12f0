/** The string operations of Python's `str`, `int` and `posixpath` that the
    handler applies to the request line and the request headers. */
module Text {
  import opened Basics

  // ---------------------------------------------------------------------
  // str.split(sep, 1)[0] and str.split(sep)
  // ---------------------------------------------------------------------

  /** The text before the first `c`, or all of `s` when `c` does not occur:
      `s.split(c, 1)[0]`. */
  function PrefixBefore(s: string, c: char): (r: string)
    ensures r <= s && c !in r
    ensures |r| < |s| ==> s[|r|] == c
  {
    if s == [] then [] else if s[0] == c then [] else [s[0]] + PrefixBefore(s[1..], c)
  }

  /** `sep.join(parts)`. */
  function JoinWith(parts: seq<string>, sep: char): string
  {
    if |parts| == 0 then ""
    else if |parts| == 1 then parts[0]
    else parts[0] + [sep] + JoinWith(parts[1..], sep)
  }

  /** `s.split(sep)`: the pieces between the separators, empty pieces included.
      There is always at least one piece; joining them again gives `s`. */
  function Split(s: string, sep: char): (parts: seq<string>)
    ensures |parts| >= 1
    ensures forall i :: 0 <= i < |parts| ==> sep !in parts[i]
    ensures JoinWith(parts, sep) == s
    decreases |s|
  {
    if sep !in s then [s]
    else
      var head := PrefixBefore(s, sep);
      assert head != s;
      var rest := Split(s[|head| + 1..], sep);
      assert s == head + [sep] + s[|head| + 1..];
      [head] + rest
  }

  /** The first piece is determined by where the first separator stands. */
  lemma {:induction false} PrefixBeforeSeparator(a: string, c: char, b: string)
    requires c !in a
    ensures PrefixBefore(a + [c] + b, c) == a
  {
    if a != [] {
      assert (a + [c] + b)[1..] == a[1..] + [c] + b;
      PrefixBeforeSeparator(a[1..], c, b);
    }
  }

  /** Splitting what was joined from separator-free pieces gives the pieces back. */
  lemma {:induction false} SplitJoin(parts: seq<string>, sep: char)
    requires |parts| >= 1
    requires forall i :: 0 <= i < |parts| ==> sep !in parts[i]
    ensures Split(JoinWith(parts, sep), sep) == parts
  {
    if |parts| == 1 {
      assert JoinWith(parts, sep) == parts[0];
    } else {
      var tail := parts[1..];
      var s := JoinWith(parts, sep);
      assert s == parts[0] + [sep] + JoinWith(tail, sep);
      assert sep in s by { assert s[|parts[0]|] == sep; }
      PrefixBeforeSeparator(parts[0], sep, JoinWith(tail, sep));
      assert s[|parts[0]| + 1..] == JoinWith(tail, sep);
      SplitJoin(tail, sep);
      assert parts == [parts[0]] + tail;
    }
  }

  // ---------------------------------------------------------------------
  // posixpath.basename and posixpath.join
  // ---------------------------------------------------------------------

  /** `posixpath.basename(p)`: the text after the last `/`, or all of `p`. */
  function Basename(p: string): (r: string)
    ensures |r| <= |p| && '/' !in r
  {
    if p == [] then []
    else if p[|p| - 1] == '/' then []
    else Basename(p[..|p| - 1]) + [p[|p| - 1]]
  }

  /** The basename is what follows the last `/` of the path: a suffix of it,
      preceded by `/` unless it is the whole path. */
  lemma {:induction false} BasenameIsLastSegment(p: string)
    ensures p == p[..|p| - |Basename(p)|] + Basename(p)
    ensures |Basename(p)| < |p| ==> p[|p| - |Basename(p)| - 1] == '/'
  {
    if p != [] && p[|p| - 1] != '/' {
      var init := p[..|p| - 1];
      BasenameIsLastSegment(init);
      assert init[..|init| - |Basename(init)|] == p[..|p| - |Basename(p)|];
    }
  }

  /** `posixpath.join(a, b)` for two components: an absolute `b` replaces `a`;
      otherwise `b` follows `a`, with one `/` between them unless `a` is empty
      or already ends with one. */
  function PathJoin(a: string, b: string): (r: string)
    ensures |b| > 0 && b[0] == '/' ==> r == b
    ensures !(|b| > 0 && b[0] == '/') ==>
      |a| + |b| <= |r| <= |a| + |b| + 1 && r[..|a|] == a && r[|r| - |b|..] == b
    ensures !(|b| > 0 && b[0] == '/') && a != [] ==> r[|r| - |b| - 1] == '/'
    // A `/` is added exactly when `a` does not already end with one.
    ensures !(|b| > 0 && b[0] == '/') && a != [] ==> (|r| == |a| + |b| <==> a[|a| - 1] == '/')
    ensures a == [] ==> r == b
  {
    if |b| > 0 && b[0] == '/' then b
    else if a == [] || a[|a| - 1] == '/' then a + b
    else a + "/" + b
  }

  /** A name containing no `/` is its own basename. */
  lemma {:induction false} BasenameOfName(name: string)
    requires '/' !in name
    ensures Basename(name) == name
  {
    if name != [] {
      BasenameOfName(name[..|name| - 1]);
    }
  }

  /** Whatever precedes the last `/` is dropped. */
  lemma {:induction false} BasenameAfterSlash(dir: string, name: string)
    requires '/' !in name
    ensures Basename(dir + "/" + name) == name
  {
    if name != [] {
      var init := name[..|name| - 1];
      assert (dir + "/" + name)[..|dir + "/" + name| - 1] == dir + "/" + init;
      BasenameAfterSlash(dir, init);
    }
  }

  /** The basename of a directory joined with a plain file name is that name. */
  lemma BasenameOfJoin(dir: string, name: string)
    requires name != [] && '/' !in name
    ensures Basename(PathJoin(dir, name)) == name
  {
    if dir == [] {
      assert PathJoin(dir, name) == name;
      BasenameOfName(name);
    } else if dir[|dir| - 1] == '/' {
      assert dir + name == dir[..|dir| - 1] + "/" + name;
      BasenameAfterSlash(dir[..|dir| - 1], name);
    } else {
      BasenameAfterSlash(dir, name);
    }
  }

  // ---------------------------------------------------------------------
  // Case-insensitive comparison of header names
  // ---------------------------------------------------------------------

  function LowerChar(c: char): char
  {
    if 'A' <= c <= 'Z' then (c as int + 32) as char else c
  }

  /** `s.lower()` on the ASCII letters. */
  function LowerAscii(s: string): (r: string)
    ensures |r| == |s|
  {
    seq(|s|, i requires 0 <= i < |s| => LowerChar(s[i]))
  }

  // ---------------------------------------------------------------------
  // int(s) for a str argument, base 10
  // ---------------------------------------------------------------------

  /** The white space `int()` skips around the digits: the ASCII characters
      tab, line feed, vertical tab, form feed, carriage return and space, and
      the characters above ASCII that have the Unicode White_Space property.
      The ASCII separators U+001C..U+001F are not among them. */
  predicate IntSpace(c: char)
  {
    var n := c as int;
    n == 0x20 || 0x09 <= n <= 0x0D || n == 0x85 || n == 0xA0 ||
    n == 0x1680 || 0x2000 <= n <= 0x200A || n == 0x2028 || n == 0x2029 ||
    n == 0x202F || n == 0x205F || n == 0x3000
  }

  /** The text after the white space `int()` skips at the front. */
  function TrimLeading(s: string): (r: string)
    ensures |r| <= |s|
    ensures r != [] ==> !IntSpace(r[0])
  {
    if s != [] && IntSpace(s[0]) then TrimLeading(s[1..]) else s
  }

  /** Only the white space at the front is skipped: what goes is a run of
      white space, and the rest is kept as it was. */
  lemma {:induction false} TrimLeadingRemovesSpaces(s: string)
    ensures TrimLeading(s) == s[|s| - |TrimLeading(s)|..]
    ensures forall i :: 0 <= i < |s| - |TrimLeading(s)| ==> IntSpace(s[i])
  {
    if s != [] && IntSpace(s[0]) {
      var t := s[1..];
      TrimLeadingRemovesSpaces(t);
      var k := |t| - |TrimLeading(t)|;
      assert t[k..] == s[k + 1..];
      assert forall i :: 1 <= i < k + 1 ==> s[i] == t[i - 1];
    } else {
      assert TrimLeading(s) == s;
    }
  }

  /** The text before the white space `int()` skips at the end. */
  function TrimTrailing(s: string): (r: string)
    ensures |r| <= |s| && r == s[..|r|]
    ensures r != [] ==> !IntSpace(r[|r| - 1])
  {
    if s != [] && IntSpace(s[|s| - 1]) then TrimTrailing(s[..|s| - 1]) else s
  }

  /** The part of `s` that `int()` reads the number from: `s` without the
      white space at either end. */
  function Trim(s: string): (r: string)
    ensures |r| <= |s|
    ensures r != [] ==> !IntSpace(r[0]) && !IntSpace(r[|r| - 1])
  {
    var t := TrimLeading(s);
    var r := TrimTrailing(t);
    assert r != [] ==> r[0] == t[0];
    r
  }

  /** Text that starts and ends with something other than white space is
      read as it is. */
  lemma TrimKeeps(s: string)
    requires s != [] && !IntSpace(s[0]) && !IntSpace(s[|s| - 1])
    ensures Trim(s) == s
  {
    assert TrimLeading(s) == s;
  }

  /** White space in front of text that starts with something else is skipped. */
  lemma {:induction false} TrimLeadingPadding(pad: string, s: string)
    requires forall i :: 0 <= i < |pad| ==> IntSpace(pad[i])
    requires s != [] && !IntSpace(s[0])
    ensures TrimLeading(pad + s) == s
  {
    if pad != [] {
      assert (pad + s)[1..] == pad[1..] + s;
      TrimLeadingPadding(pad[1..], s);
    } else {
      assert pad + s == s;
    }
  }

  /** White space after text that ends with something else is skipped. */
  lemma {:induction false} TrimTrailingPadding(s: string, pad: string)
    requires forall i :: 0 <= i < |pad| ==> IntSpace(pad[i])
    requires s != [] && !IntSpace(s[|s| - 1])
    ensures TrimTrailing(s + pad) == s
  {
    if pad != [] {
      var init := pad[..|pad| - 1];
      assert (s + pad)[..|s + pad| - 1] == s + init;
      TrimTrailingPadding(s, init);
    } else {
      assert s + pad == s;
    }
  }

  /** White space on both sides of the number is skipped. */
  lemma TrimPadding(pre: string, s: string, post: string)
    requires forall i :: 0 <= i < |pre| ==> IntSpace(pre[i])
    requires forall i :: 0 <= i < |post| ==> IntSpace(post[i])
    requires s != [] && !IntSpace(s[0]) && !IntSpace(s[|s| - 1])
    ensures Trim(pre + s + post) == s
  {
    assert pre + s + post == pre + (s + post);
    TrimLeadingPadding(pre, s + post);
    TrimTrailingPadding(s, post);
  }

  predicate IsDigit(c: char) { '0' <= c <= '9' }

  function DigitValue(c: char): nat
    requires IsDigit(c)
  {
    c as int - '0' as int
  }

  function DigitChar(d: nat): (c: char)
    requires d < 10
    ensures IsDigit(c) && DigitValue(c) == d
  {
    ('0' as int + d) as char
  }

  /** The number of digit characters in `s`, leading zeros included. */
  function DigitCount(s: string): (k: nat)
    ensures k <= |s|
  {
    if s == [] then 0 else (if IsDigit(s[0]) then 1 else 0) + DigitCount(s[1..])
  }

  /** Each character of a text made of digits counts. */
  lemma {:induction false} DigitCountOfDigits(s: string)
    requires forall i :: 0 <= i < |s| ==> IsDigit(s[i])
    ensures DigitCount(s) == |s|
  {
    if s != [] {
      DigitCountOfDigits(s[1..]);
    }
  }

  /** The number of underscores in `s`. */
  function UnderscoreCount(s: string): (k: nat)
    ensures k <= |s|
  {
    if s == [] then 0 else (if s[0] == '_' then 1 else 0) + UnderscoreCount(s[1..])
  }

  /** In a text of digits and underscores, every character is one or the other. */
  lemma {:induction false} DigitsAndUnderscores(s: string)
    requires forall i :: 0 <= i < |s| ==> IsDigit(s[i]) || s[i] == '_'
    ensures DigitCount(s) + UnderscoreCount(s) == |s|
  {
    if s != [] {
      DigitsAndUnderscores(s[1..]);
    }
  }

  /** The digits that the limit counts in a well-formed number are all of its
      characters except the underscores: leading zeros count, `_` does not. */
  lemma DigitCountOfWellFormed(u: string)
    requires ParseDigits(u).Some?
    ensures DigitCount(u) == |u| - UnderscoreCount(u) && DigitCount(u) >= 1
  {
    DigitsAndUnderscores(u);
    assert IsDigit(u[0]);
  }

  /** The most digits `int()` converts in base 10 (`sys.get_int_max_str_digits()`
      at its default); a longer number raises ValueError. */
  const MaxStrDigits: nat := 4300

  /** The value of `digit ('_'? digit)*`, or None for any other text: a single
      underscore may stand between two digits, nowhere else. */
  function ParseDigits(s: string): (v: Option<nat>)
    ensures v.Some? ==> |s| >= 1 && IsDigit(s[0]) && IsDigit(s[|s| - 1])
    ensures v.Some? ==> forall i :: 0 <= i < |s| ==> IsDigit(s[i]) || s[i] == '_'
    decreases |s|
  {
    if |s| == 0 || !IsDigit(s[|s| - 1]) then None
    else
      var d := DigitValue(s[|s| - 1]);
      if |s| == 1 then Some(d)
      else
        var init := if s[|s| - 2] == '_' then s[..|s| - 2] else s[..|s| - 1];
        if init == [] then None
        else
          match ParseDigits(init)
          case None => None
          case Some(v) =>
            assert forall i :: 0 <= i < |init| ==> s[i] == init[i];
            Some(10 * v + d)
  }

  /** The digits of a number as `int()` reads them: rejected when they are
      malformed or when there are more than MaxStrDigits of them. */
  function ParseMagnitude(u: string): (v: Option<nat>)
    ensures v.Some? ==> ParseDigits(u).Some? && DigitCount(u) <= MaxStrDigits
    ensures ParseDigits(u).Some? && DigitCount(u) <= MaxStrDigits ==> v == ParseDigits(u)
  {
    if DigitCount(u) > MaxStrDigits then None else ParseDigits(u)
  }

  /** `int(s)`: None where Python raises ValueError. White space around the
      number is skipped; a sign must be followed directly by the digits. */
  function ParseInt(s: string): Option<int>
  {
    var t := Trim(s);
    if |t| > 0 && (t[0] == '+' || t[0] == '-') then
      match ParseMagnitude(t[1..])
      case None => None
      case Some(v) => Some(if t[0] == '-' then 0 - v else v)
    else
      match ParseMagnitude(t)
      case None => None
      case Some(v) => Some(v)
  }

  /** A number is read only from an optional sign followed by a well-formed
      digit text with no more than MaxStrDigits digits; a negative one only
      from a `-` sign. */
  lemma ParseIntWellFormed(s: string)
    ensures ParseInt(s).Some? ==> var t := Trim(s);
      |t| >= 1 && IsDigit(t[|t| - 1]) && (IsDigit(t[0]) || t[0] == '+' || t[0] == '-') &&
      ParseDigits(if t[0] == '+' || t[0] == '-' then t[1..] else t).Some? &&
      1 <= DigitCount(t) <= MaxStrDigits
    ensures ParseInt(s).Some? && ParseInt(s).value < 0 ==> Trim(s)[0] == '-'
  {
    var t := Trim(s);
    if ParseInt(s).Some? {
      if t[0] == '+' || t[0] == '-' {
        DigitCountOfWellFormed(t[1..]);
        assert DigitCount(t) == DigitCount(t[1..]);
      } else {
        DigitCountOfWellFormed(t);
      }
    }
  }

  /** The decimal digits of `n`, most significant first, without leading zeros. */
  function DecimalDigits(n: nat): (s: string)
    ensures |s| >= 1 && forall i :: 0 <= i < |s| ==> IsDigit(s[i])
  {
    if n < 10 then [DigitChar(n)] else DecimalDigits(n / 10) + [DigitChar(n % 10)]
  }

  /** `str(i)`. */
  function Show(i: int): string
  {
    if i < 0 then "-" + DecimalDigits(-i) else DecimalDigits(i)
  }

  lemma {:induction false} ParseDecimalDigits(n: nat)
    ensures ParseDigits(DecimalDigits(n)) == Some(n)
  {
    if n >= 10 {
      var s := DecimalDigits(n);
      var init := DecimalDigits(n / 10);
      assert s[..|s| - 1] == init;
      assert s[|s| - 2] == init[|init| - 1];
      ParseDecimalDigits(n / 10);
    }
  }

  /** The decimal digits of `n`, if there are no more than MaxStrDigits of
      them, are read back as `n`. */
  lemma ParseMagnitudeDigits(n: nat)
    requires |DecimalDigits(n)| <= MaxStrDigits
    ensures ParseMagnitude(DecimalDigits(n)) == Some(n)
  {
    DigitCountOfDigits(DecimalDigits(n));
    ParseDecimalDigits(n);
  }

  lemma ParseShowNat(n: nat)
    requires |DecimalDigits(n)| <= MaxStrDigits
    ensures ParseInt(DecimalDigits(n)) == Some(n)
  {
    var s := DecimalDigits(n);
    TrimKeeps(s);
    ParseMagnitudeDigits(n);
  }

  lemma ParseShowNegative(n: nat)
    requires n > 0 && |DecimalDigits(n)| <= MaxStrDigits
    ensures ParseInt("-" + DecimalDigits(n)) == Some(0 - n)
  {
    var d := DecimalDigits(n);
    var s := "-" + d;
    assert s[1..] == d && s[0] == '-' && s[|s| - 1] == d[|d| - 1];
    TrimKeeps(s);
    ParseMagnitudeDigits(n);
  }

  /** `int(str(i)) == i` for every integer whose digits `str()` itself
      converts (no more than MaxStrDigits of them). */
  lemma ParseShow(i: int)
    requires |DecimalDigits(if i < 0 then -i else i)| <= MaxStrDigits
    ensures ParseInt(Show(i)) == Some(i)
  {
    if i < 0 {
      ParseShowNegative(-i);
    } else {
      ParseShowNat(i);
    }
  }

  /** A value padded with the white space `int()` skips is still read. */
  lemma ParsePadded(pre: string, n: nat, post: string)
    requires forall i :: 0 <= i < |pre| ==> IntSpace(pre[i])
    requires forall i :: 0 <= i < |post| ==> IntSpace(post[i])
    requires |DecimalDigits(n)| <= MaxStrDigits
    ensures ParseInt(pre + DecimalDigits(n) + post) == Some(n)
  {
    var d := DecimalDigits(n);
    TrimPadding(pre, d, post);
    ParseMagnitudeDigits(n);
  }

  /** The ASCII information separators are not white space to `int()`: a
      value that starts with one is rejected. */
  lemma SeparatorIsNotSkipped(c: char, n: nat)
    requires 0x1C <= c as int <= 0x1F
    ensures ParseInt([c] + DecimalDigits(n)) == None
  {
    var d := DecimalDigits(n);
    var s := [c] + d;
    assert s[|s| - 1] == d[|d| - 1];
    TrimKeeps(s);
  }

  /** More than MaxStrDigits digits are rejected, leading zeros included. */
  lemma TooManyDigits(s: string)
    requires |s| > MaxStrDigits && forall i :: 0 <= i < |s| ==> IsDigit(s[i])
    ensures ParseInt(s) == None
  {
    TrimKeeps(s);
    DigitCountOfDigits(s);
  }
}
