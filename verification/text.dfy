/**
 * The string operations the data path relies on: Python's int() on decimal
 * literals, str.split with a one-character separator, and the POSIX
 * os.path.basename / os.path.splitext used to take a snapshot's date out of
 * its file name.
 */
module Text {
  import opened Wrappers

  predicate IsDigit(c: char) {
    '0' <= c <= '9'
  }

  predicate AllDigits(s: string) {
    forall i :: 0 <= i < |s| ==> IsDigit(s[i])
  }

  function DigitValue(c: char): (v: nat)
    requires IsDigit(c)
    ensures v < 10
  {
    c as int - '0' as int
  }

  function DigitChar(v: nat): (c: char)
    requires v < 10
    ensures IsDigit(c) && DigitValue(c) == v
  {
    ('0' as int + v) as char
  }

  /** The value of a run of decimal digits, most significant digit first. */
  function DigitsValue(s: string): nat
    requires AllDigits(s)
  {
    if s == [] then 0 else 10 * DigitsValue(s[..|s| - 1]) + DigitValue(s[|s| - 1])
  }

  /**
   * int(s) for base 10: an optional sign followed by at least one decimal
   * digit; anything else is a ValueError, here None.
   */
  function ParseInt(s: string): Option<int> {
    if |s| > 0 && (s[0] == '+' || s[0] == '-') then
      if |s| > 1 && AllDigits(s[1..]) then
        var magnitude: int := DigitsValue(s[1..]);
        Some(if s[0] == '-' then -magnitude else magnitude)
      else
        None
    else if |s| > 0 && AllDigits(s) then
      Some(DigitsValue(s))
    else
      None
  }

  function Pow10(n: nat): (p: nat)
    ensures p >= 1
  {
    if n == 0 then 1 else 10 * Pow10(n - 1)
  }

  /** The last `width` decimal digits of n, zero-padded on the left (Python's '%0*d'). */
  function PadDigits(n: nat, width: nat): (s: string)
    ensures |s| == width && AllDigits(s)
  {
    if width == 0 then "" else PadDigits(n / 10, width - 1) + [DigitChar(n % 10)]
  }

  /** The number of digits str(n) has for a natural number n. */
  function NumDigits(n: nat): (k: nat)
    ensures k >= 1 && n < Pow10(k)
  {
    if n < 10 then 1 else 1 + NumDigits(n / 10)
  }

  /** str(n) for an integer n. */
  function FormatInt(n: int): string {
    var magnitude := if n < 0 then -n else n;
    (if n < 0 then "-" else "") + PadDigits(magnitude, NumDigits(magnitude))
  }

  lemma {:induction false} DigitsValueSnoc(s: string, c: char)
    requires AllDigits(s) && IsDigit(c)
    ensures AllDigits(s + [c]) && DigitsValue(s + [c]) == 10 * DigitsValue(s) + DigitValue(c)
  {
    assert (s + [c])[..|s|] == s;
  }

  /** Reading back a zero-padded rendering gives the number, whenever it fits the width. */
  lemma {:induction false} PadDigitsValue(n: nat, width: nat)
    requires n < Pow10(width)
    ensures DigitsValue(PadDigits(n, width)) == n
  {
    if width > 0 {
      PadDigitsValue(n / 10, width - 1);
      DigitsValueSnoc(PadDigits(n / 10, width - 1), DigitChar(n % 10));
    }
  }

  /** int() accepts zero-padded fields: "03" and "3" both read as 3. */
  lemma ParseIntPadded(n: nat, width: nat)
    requires width >= 1 && n < Pow10(width)
    ensures ParseInt(PadDigits(n, width)) == Some(n)
  {
    PadDigitsValue(n, width);
    var s := PadDigits(n, width);
    assert IsDigit(s[0]);
  }

  /** int(str(n)) == n for every integer n. */
  lemma ParseIntFormat(n: int)
    ensures ParseInt(FormatInt(n)) == Some(n)
  {
    var magnitude := if n < 0 then -n else n;
    var digits := PadDigits(magnitude, NumDigits(magnitude));
    PadDigitsValue(magnitude, NumDigits(magnitude));
    assert IsDigit(digits[0]);
    if n < 0 {
      assert FormatInt(n) == "-" + digits;
      assert ("-" + digits)[1..] == digits;
    } else {
      assert FormatInt(n) == digits;
    }
  }

  /** str.split(sep) for a one-character separator: never empty, and no piece holds the separator. */
  function Split(s: string, sep: char): (parts: seq<string>)
    ensures |parts| >= 1
    ensures forall i :: 0 <= i < |parts| ==> sep !in parts[i]
  {
    if s == [] then
      [""]
    else
      var rest := Split(s[1..], sep);
      if s[0] == sep then [""] + rest else [[s[0]] + rest[0]] + rest[1..]
  }

  /** sep.join(parts). */
  function Join(parts: seq<string>, sep: char): string
    requires |parts| >= 1
  {
    if |parts| == 1 then parts[0] else parts[0] + [sep] + Join(parts[1..], sep)
  }

  /** Splitting loses nothing: joining the pieces gives the text back. */
  lemma {:induction false} JoinSplit(s: string, sep: char)
    ensures Join(Split(s, sep), sep) == s
  {
    if s != [] {
      var rest := Split(s[1..], sep);
      JoinSplit(s[1..], sep);
      if s[0] == sep {
        assert Split(s, sep)[1..] == rest;
      } else if |rest| == 1 {
        assert Join(Split(s, sep), sep) == [s[0]] + rest[0];
      } else {
        var parts := Split(s, sep);
        assert parts[1..] == rest[1..];
        assert Join(rest, sep) == rest[0] + [sep] + Join(rest[1..], sep);
        assert Join(parts, sep) == [s[0]] + rest[0] + [sep] + Join(rest[1..], sep);
      }
    }
  }

  /** A piece free of the separator stays glued to whatever the first piece of the tail is. */
  lemma {:induction false} SplitPrefix(a: string, tail: string, sep: char)
    requires sep !in a
    ensures Split(a + tail, sep) == [a + Split(tail, sep)[0]] + Split(tail, sep)[1..]
  {
    if a != [] {
      SplitPrefix(a[1..], tail, sep);
      assert (a + tail)[1..] == a[1..] + tail;
      assert [a[0]] + (a[1..] + Split(tail, sep)[0]) == a + Split(tail, sep)[0];
    } else {
      var parts := Split(tail, sep);
      assert a + tail == tail && a + parts[0] == parts[0];
      assert [parts[0]] + parts[1..] == parts;
    }
  }

  /** Splitting what was joined from separator-free pieces gives the pieces back. */
  lemma {:induction false} SplitJoin(parts: seq<string>, sep: char)
    requires |parts| >= 1
    requires forall i :: 0 <= i < |parts| ==> sep !in parts[i]
    ensures Split(Join(parts, sep), sep) == parts
  {
    if |parts| == 1 {
      SplitPrefix(parts[0], "", sep);
      assert parts[0] + "" == parts[0];
    } else {
      SplitJoin(parts[1..], sep);
      var tail := [sep] + Join(parts[1..], sep);
      assert tail[1..] == Join(parts[1..], sep);
      assert Split(tail, sep) == [""] + parts[1..];
      SplitPrefix(parts[0], tail, sep);
      assert parts[0] + [sep] + Join(parts[1..], sep) == parts[0] + tail;
      assert parts[0] + "" == parts[0];
      assert [parts[0]] + parts[1..] == parts;
    }
  }

  /** The index of the last occurrence of c in s, or -1 (str.rfind). */
  function LastIndexOf(s: string, c: char): (k: int)
    ensures -1 <= k < |s|
    ensures k >= 0 ==> s[k] == c
    ensures forall j :: k < j < |s| ==> s[j] != c
  {
    if s == [] then -1
    else if s[|s| - 1] == c then |s| - 1
    else LastIndexOf(s[..|s| - 1], c)
  }

  /**
   * os.path.basename on POSIX: everything after the last '/'.
   * The result is a '/'-free suffix of the path that is either the whole
   * path or directly preceded by a '/'.
   */
  function BaseName(path: string): (name: string)
    ensures '/' !in name
    ensures |name| <= |path| && name == path[|path| - |name|..]
    ensures |name| < |path| ==> path[|path| - |name| - 1] == '/'
  {
    if path == [] || path[|path| - 1] == '/' then ""
    else BaseName(path[..|path| - 1]) + [path[|path| - 1]]
  }

  predicate AllDots(s: string) {
    forall i :: 0 <= i < |s| ==> s[i] == '.'
  }

  /**
   * The root that os.path.splitext returns on POSIX: the path without the
   * text from its last '.' on, unless that '.' belongs to the directory
   * part or only dots precede it in the last component (".bashrc" has no
   * extension).
   */
  function StripExtension(path: string): (root: string)
    ensures root == path || (|root| < |path| && root == path[..|root|] && path[|root|] == '.')
    ensures root != path ==> forall j :: |root| < j < |path| ==> path[j] != '.' && path[j] != '/'
  {
    var sepIndex := LastIndexOf(path, '/');
    var dotIndex := LastIndexOf(path, '.');
    if dotIndex > sepIndex && !AllDots(path[sepIndex + 1..dotIndex]) then
      path[..dotIndex]
    else
      path
  }

  /**
   * The last component of the path holds a '.' with some character other
   * than '.' before it: the condition under which splitext finds an
   * extension, so ".bashrc" and "a/..csv" have none and "a/.b.csv" has one.
   */
  ghost predicate HasExtension(path: string) {
    var sepIndex := LastIndexOf(path, '/');
    exists k :: (sepIndex < k < |path| && path[k] == '.'
      && (exists j :: sepIndex < j < k && path[j] != '.'))
  }

  lemma StripExtensionFound(path: string)
    requires StripExtension(path) != path
    ensures HasExtension(path)
  {
    var sepIndex := LastIndexOf(path, '/');
    var dotIndex := LastIndexOf(path, '.');
    var last := path[sepIndex + 1..dotIndex];
    var i :| 0 <= i < |last| && last[i] != '.';
    assert path[sepIndex + 1 + i] != '.';
  }

  lemma StripExtensionKept(path: string)
    requires HasExtension(path)
    ensures StripExtension(path) != path
  {
    var sepIndex := LastIndexOf(path, '/');
    var dotIndex := LastIndexOf(path, '.');
    var k :| sepIndex < k < |path| && path[k] == '.' && (exists j :: sepIndex < j < k && path[j] != '.');
    var j :| sepIndex < j < k && path[j] != '.';
    assert k <= dotIndex;
    assert path[sepIndex + 1..dotIndex][j - sepIndex - 1] != '.';
  }

  /** splitext removes an extension exactly when the last component has one. */
  lemma StripExtensionMeaning(path: string)
    ensures StripExtension(path) != path <==> HasExtension(path)
  {
    if StripExtension(path) != path {
      StripExtensionFound(path);
    } else if HasExtension(path) {
      StripExtensionKept(path);
    }
  }
}
