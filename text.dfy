/** Strings as the converter handles them: `str.split(',')`, `str(int)` and
    the `name`, `stem` and `suffix` of a `pathlib.Path`. */
module Text {

  /** Index of the first occurrence of `c` in `s`, or `|s|` when there is none. */
  function IndexOf(s: string, c: char): (i: nat)
    ensures i <= |s|
    ensures i < |s| ==> s[i] == c
    ensures forall j :: 0 <= j < i ==> s[j] != c
  {
    if s == [] then 0
    else if s[0] == c then 0
    else 1 + IndexOf(s[1..], c)
  }

  /** Python's `s.split(sep)` for a one-character separator: every separator
      cuts, empty pieces are kept, and there is always at least one piece. */
  function Split(s: string, sep: char): (parts: seq<string>)
    ensures |parts| >= 1
    ensures forall p :: p in parts ==> sep !in p
    decreases |s|
  {
    var i := IndexOf(s, sep);
    if i == |s| then [s]
    else [s[..i]] + Split(s[i + 1..], sep)
  }

  /** Python's `sep.join(parts)`. */
  function Join(parts: seq<string>, sep: char): string
  {
    if parts == [] then ""
    else if |parts| == 1 then parts[0]
    else parts[0] + [sep] + Join(parts[1..], sep)
  }

  /** Joining a piece in front of at least one other piece puts a separator
      between them. */
  lemma JoinCons(x: string, parts: seq<string>, sep: char)
    requires parts != []
    ensures Join([x] + parts, sep) == x + [sep] + Join(parts, sep)
  {
    assert ([x] + parts)[0] == x && ([x] + parts)[1..] == parts;
  }

  /** Joining the pieces of a split gives back the string. */
  lemma {:induction false} JoinSplit(s: string, sep: char)
    ensures Join(Split(s, sep), sep) == s
    decreases |s|
  {
    var i := IndexOf(s, sep);
    if i < |s| {
      var rest := s[i + 1..];
      JoinSplit(rest, sep);
      SplitAt(s, sep);
      JoinCons(s[..i], Split(rest, sep), sep);
      CutAt(s, i);
    } else {
      SplitNone(s, sep);
    }
  }

  /** `Split` at the first separator. */
  lemma SplitAt(s: string, sep: char)
    requires IndexOf(s, sep) < |s|
    ensures Split(s, sep) == [s[..IndexOf(s, sep)]] + Split(s[IndexOf(s, sep) + 1..], sep)
  {
  }

  /** With no separator there is one piece, the whole string. */
  lemma SplitNone(s: string, sep: char)
    requires IndexOf(s, sep) == |s|
    ensures Join(Split(s, sep), sep) == s
  {
    assert Split(s, sep) == [s];
  }

  /** A string is what comes before position `i`, the character there, and
      what comes after. */
  lemma CutAt(s: string, i: nat)
    requires i < |s|
    ensures s == s[..i] + [s[i]] + s[i + 1..]
  {
  }

  /** `t` occurs in `s` at position `i`, with a separator (or an end of `s`)
      on either side. */
  ghost predicate TokenAt(s: string, t: string, sep: char, i: int)
  {
    0 <= i && i + |t| <= |s| && s[i..i + |t|] == t
    && (i == 0 || s[i - 1] == sep)
    && (i + |t| == |s| || s[i + |t|] == sep)
  }

  /** `t` stands in `s` between two separators (or the ends of `s`). */
  ghost predicate IsToken(s: string, t: string, sep: char)
  {
    exists i :: TokenAt(s, t, sep, i)
  }

  /** A token of what follows the first separator is a token of the whole. */
  lemma TokenAfterSeparator(s: string, t: string, sep: char, k: nat, i: int)
    requires k < |s| && s[k] == sep && TokenAt(s[k + 1..], t, sep, i)
    ensures TokenAt(s, t, sep, k + 1 + i)
  {
    assert s[k + 1 + i..k + 1 + i + |t|] == s[k + 1..][i..i + |t|];
  }

  /** A separator-free token of `s` is either the piece before the first
      separator `k` of `s` or a token of what follows it. */
  lemma TokenSplitsAtSeparator(s: string, t: string, sep: char, k: nat, i: int)
    requires sep !in t
    requires k < |s| && s[k] == sep && forall j :: 0 <= j < k ==> s[j] != sep
    requires TokenAt(s, t, sep, i)
    ensures t == s[..k] || TokenAt(s[k + 1..], t, sep, i - k - 1)
  {
    if i <= k {
      assert i == 0;
      assert t == s[..k];
    } else {
      assert s[k + 1..][i - k - 1..i - k - 1 + |t|] == s[i..i + |t|];
    }
  }

  /** A separator-free `t` is one of the pieces of `s.split(sep)` exactly
      when it occurs in `s` delimited by separators or the ends of `s`. */
  lemma {:induction false} SplitHasToken(s: string, t: string, sep: char)
    requires sep !in t
    ensures t in Split(s, sep) <==> IsToken(s, t, sep)
    decreases |s|
  {
    var k := IndexOf(s, sep);
    if k == |s| {
      assert Split(s, sep) == [s];
      if t == s {
        assert TokenAt(s, t, sep, 0);
      }
      if IsToken(s, t, sep) {
        var i :| TokenAt(s, t, sep, i);
        assert i == 0 && i + |t| == |s|;
      }
    } else {
      var rest := s[k + 1..];
      assert Split(s, sep) == [s[..k]] + Split(rest, sep);
      SplitHasToken(rest, t, sep);
      if t == s[..k] {
        assert TokenAt(s, t, sep, 0);
      }
      if IsToken(rest, t, sep) {
        var i :| TokenAt(rest, t, sep, i);
        TokenAfterSeparator(s, t, sep, k, i);
      }
      if IsToken(s, t, sep) {
        var i :| TokenAt(s, t, sep, i);
        TokenSplitsAtSeparator(s, t, sep, k, i);
      }
    }
  }

  /** The decimal digit for `d`. */
  function Digit(d: nat): char
    requires d < 10
  {
    ('0' as int + d) as char
  }

  /** The decimal digits of `n`, most significant first, without leading zeros. */
  function Digits(n: nat): (s: string)
    ensures |s| >= 1
  {
    if n < 10 then [Digit(n)] else Digits(n / 10) + [Digit(n % 10)]
  }

  /** Python's `str(n)` for an integer. */
  function Decimal(n: int): string
  {
    if n < 0 then "-" + Digits(-n) else Digits(n)
  }

  /** The value of a decimal digit. */
  function DigitValue(c: char): nat
  {
    if '0' <= c <= '9' then (c as int - '0' as int) as nat else 0
  }

  /** The value of a string of decimal digits, read from its last character. */
  function ParseDigits(s: string): nat
  {
    if s == [] then 0 else 10 * ParseDigits(s[..|s| - 1]) + DigitValue(s[|s| - 1])
  }

  /** Python's `int(s)` on what `str` writes. */
  function ParseDecimal(s: string): int
  {
    if |s| > 0 && s[0] == '-' then -(ParseDigits(s[1..]) as int) else ParseDigits(s)
  }

  lemma {:induction false} ParseDigitsOfDigits(n: nat)
    ensures ParseDigits(Digits(n)) == n
    ensures '-' !in Digits(n)
  {
    if n >= 10 {
      ParseDigitsOfDigits(n / 10);
      var s := Digits(n / 10) + [Digit(n % 10)];
      assert s[..|s| - 1] == Digits(n / 10);
    }
  }

  /** `str` loses nothing: reading back what it writes gives the number. */
  lemma DecimalRoundTrip(n: int)
    ensures ParseDecimal(Decimal(n)) == n
  {
    if n < 0 {
      var d := Digits(-n);
      ParseDigitsOfDigits(-n);
      assert ("-" + d)[0] == '-' && ("-" + d)[1..] == d;
    } else {
      var d := Digits(n);
      ParseDigitsOfDigits(n);
      assert d[0] in d;
    }
  }

  /** Distinct numbers are written differently. */
  lemma DecimalInjective(m: int, n: int)
    requires Decimal(m) == Decimal(n)
    ensures m == n
  {
    DecimalRoundTrip(m);
    DecimalRoundTrip(n);
  }

  /** Index of the last occurrence of `c` in `s`, or -1 when there is none (`str.rfind`). */
  function LastIndexOf(s: string, c: char): (i: int)
    ensures -1 <= i < |s|
    ensures i >= 0 ==> s[i] == c
    ensures forall j :: i < j < |s| ==> s[j] != c
  {
    if s == [] then -1
    else if s[|s| - 1] == c then |s| - 1
    else LastIndexOf(s[..|s| - 1], c)
  }

  /** `Path(p).name` for a path written with `/` and no trailing separator:
      the text after the last `/`. */
  function Name(path: string): (name: string)
    ensures '/' !in name
    ensures |name| <= |path| && name == path[|path| - |name|..]
  {
    path[LastIndexOf(path, '/') + 1..]
  }

  /** `PurePath.suffix`: from the last dot of the name, when that dot is
      neither the first nor the last character; otherwise empty. */
  function Suffix(name: string): string
  {
    var i := LastIndexOf(name, '.');
    if 0 < i < |name| - 1 then name[i..] else ""
  }

  /** `PurePath.stem`: the name without its suffix. */
  function Stem(name: string): string
  {
    var i := LastIndexOf(name, '.');
    if 0 < i < |name| - 1 then name[..i] else name
  }

  /** A name is its stem followed by its suffix. */
  lemma StemSuffix(name: string)
    ensures Stem(name) + Suffix(name) == name
  {
  }

  /** The suffix is `.xml` exactly when the name ends in `.xml` after at least
      one other character. */
  lemma {:induction false} SuffixIsXml(name: string)
    ensures Suffix(name) == ".xml" <==> |name| >= 5 && name[|name| - 4..] == ".xml"
  {
    var i := LastIndexOf(name, '.');
    if |name| >= 5 && name[|name| - 4..] == ".xml" {
      assert name[|name| - 4] == '.';
      assert name[|name| - 3..] == "xml";
      assert forall j :: |name| - 4 < j < |name| ==> name[j] == name[|name| - 4..][j - (|name| - 4)];
      assert i == |name| - 4;
    }
    if Suffix(name) == ".xml" {
      assert 0 < i < |name| - 1 && name[i..] == ".xml";
      assert |name| - i == 4;
    }
  }
}
