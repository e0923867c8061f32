/** The JavaScript string operations the pivot engine relies on:
    `includes`, `replace` with a string pattern, `split` on a string delimiter,
    `split` on a one-character class, `join`, `toLowerCase` and the conversions
    between numbers and decimal digit strings. */
module Strings {
  import opened Wrappers

  /** The delimiter between the field values of a composite key. */
  const Delimiter: string := " | "

  /** `pat` occurs in `s` starting at index `i`. */
  predicate OccursAt(s: string, pat: string, i: nat)
  {
    i + |pat| <= |s| && s[i..i + |pat|] == pat
  }

  /** `s.indexOf(pat, from)`: the first occurrence of `pat` at or after `from`. */
  function IndexOf(s: string, pat: string, from: nat): (r: Option<nat>)
    requires |pat| > 0
    ensures r.Some? ==> from <= r.value && OccursAt(s, pat, r.value)
    ensures r.Some? ==> forall j :: from <= j < r.value ==> !OccursAt(s, pat, j)
    ensures r.None? ==> forall j :: from <= j ==> !OccursAt(s, pat, j)
    decreases |s| - from
  {
    if from + |pat| > |s| then None
    else if s[from..from + |pat|] == pat then Some(from)
    else IndexOf(s, pat, from + 1)
  }

  /** `s.includes(pat)`. */
  function Includes(s: string, pat: string): (b: bool)
    requires |pat| > 0
    ensures b <==> exists i: nat :: OccursAt(s, pat, i)
  {
    IndexOf(s, pat, 0).Some?
  }

  /** `s.replace(pat, rep)` with a string pattern: only the first occurrence is replaced. */
  function ReplaceFirst(s: string, pat: string, rep: string): string
    requires |pat| > 0
  {
    match IndexOf(s, pat, 0)
    case None => s
    case Some(i) => s[..i] + rep + s[i + |pat|..]
  }

  /** `s.split(d)` with a non-empty string delimiter: the pieces between the
      non-overlapping occurrences of `d` found scanning from the left. */
  function Split(s: string, d: string): (r: seq<string>)
    requires |d| > 0
    ensures |r| >= 1
    decreases |s|
  {
    match IndexOf(s, d, 0)
    case None => [s]
    case Some(i) => [s[..i]] + Split(s[i + |d|..], d)
  }

  /** `parts.join(d)`. */
  function Join(parts: seq<string>, d: string): string
    decreases |parts|
  {
    if |parts| == 0 then ""
    else if |parts| == 1 then parts[0]
    else parts[0] + d + Join(parts[1..], d)
  }

  /** Joining a piece in front of a non-empty list puts the delimiter after it. */
  lemma JoinCons(p: string, parts: seq<string>, d: string)
    requires |parts| >= 1
    ensures Join([p] + parts, d) == p + d + Join(parts, d)
  {
    assert ([p] + parts)[1..] == parts;
  }

  /** Joining the pieces of a split gives back the string, whatever it holds:
      so distinct strings always split into distinct piece lists. */
  lemma {:induction false} JoinSplit(s: string, d: string)
    requires |d| > 0
    ensures Join(Split(s, d), d) == s
    decreases |s|
  {
    var r := IndexOf(s, d, 0);
    if r.Some? {
      var i := r.value;
      var rest := s[i + |d|..];
      var sp := Split(rest, d);
      assert Split(s, d) == [s[..i]] + sp;
      JoinSplit(rest, d);
      JoinCons(s[..i], sp, d);
      assert s == s[..i] + d + rest by {
        assert s[i..i + |d|] == d;
        assert s == s[..i] + s[i..i + |d|] + rest;
      }
    }
  }

  /** A string without `'|'` holds no delimiter. */
  lemma NoDelimiter(p: string)
    requires '|' !in p
    ensures IndexOf(p, Delimiter, 0).None?
  {
    forall j: nat | j + 3 <= |p| ensures !OccursAt(p, Delimiter, j) {
      assert p[j..j + 3][1] == p[j + 1] != '|';
    }
  }

  /** After a piece without `'|'`, the first delimiter is the joining one. */
  lemma FirstDelimiter(p: string, rest: string)
    requires '|' !in p
    ensures IndexOf(p + Delimiter + rest, Delimiter, 0) == Some(|p|)
  {
    var s := p + Delimiter + rest;
    assert s[|p|..|p| + 3] == Delimiter;
    assert OccursAt(s, Delimiter, |p|);
    forall j: nat | j < |p| ensures !OccursAt(s, Delimiter, j) {
      assert s[j..j + 3][1] == s[j + 1] != '|' by {
        if j + 1 < |p| {
          assert s[j + 1] == p[j + 1];
        } else {
          assert s[j + 1] == Delimiter[0];
        }
      }
    }
  }

  /** Key round trip: splitting a joined key on the delimiter gives back the
      values, in order, provided no value contains the character `'|'`. */
  lemma {:induction false} SplitJoin(parts: seq<string>)
    requires |parts| >= 1
    requires forall k :: 0 <= k < |parts| ==> '|' !in parts[k]
    ensures Split(Join(parts, Delimiter), Delimiter) == parts
    decreases |parts|
  {
    if |parts| == 1 {
      NoDelimiter(parts[0]);
    } else {
      var rest := Join(parts[1..], Delimiter);
      FirstDelimiter(parts[0], rest);
      var s := parts[0] + Delimiter + rest;
      assert Join(parts, Delimiter) == s;
      assert s[|parts[0]| + |Delimiter|..] == rest;
      SplitJoin(parts[1..]);
      assert s[..|parts[0]|] == parts[0];
      assert Split(s, Delimiter) == [parts[0]] + Split(rest, Delimiter);
      assert parts == [parts[0]] + parts[1..];
    }
  }

  /** "No value contains the delimiter" is not enough for the round trip:
      `"a |"` and `" b"` join to `"a | |  b"`, which splits as `["a", "|  b"]`. */
  lemma SplitJoinNeedsBarFreeValues()
    ensures !Includes("a |", Delimiter) && !Includes(" b", Delimiter)
    ensures Split(Join(["a |", " b"], Delimiter), Delimiter) == ["a", "|  b"]
  {
    var s := Join(["a |", " b"], Delimiter);
    assert s == "a | |  b";
    assert IndexOf(s, Delimiter, 0) == Some(1) by {
      assert s[0..3][0] != Delimiter[0];
      assert s[1..4] == Delimiter;
    }
    var rest := s[4..];
    assert rest == "|  b";
    assert IndexOf(rest, Delimiter, 0).None? by {
      assert rest[0..3][0] != Delimiter[0];
      assert rest[1..4][1] != Delimiter[1];
    }
    assert Split(rest, Delimiter) == [rest];
    assert s[..1] == "a";
    assert Split(s, Delimiter) == [s[..1]] + Split(rest, Delimiter);
    assert IndexOf("a |", Delimiter, 0).None? by {
      assert "a |"[0..3][0] != Delimiter[0];
    }
    assert IndexOf(" b", Delimiter, 0).None?;
  }

  /** `s.split(/[...]/)` for a regular expression that is a class of single
      characters: the pieces between separator characters. */
  function SplitOn(s: string, seps: set<char>): (r: seq<string>)
    ensures |r| >= 1
    decreases |s|
  {
    if |s| == 0 then [""]
    else
      var rest := SplitOn(s[1..], seps);
      if s[0] in seps then [""] + rest
      else [[s[0]] + rest[0]] + rest[1..]
  }

  /** A piece without separators followed by a separator is split off whole. */
  lemma {:induction false} SplitOnPiece(a: string, c: char, b: string, seps: set<char>)
    requires forall i :: 0 <= i < |a| ==> a[i] !in seps
    requires c in seps
    ensures SplitOn(a + [c] + b, seps) == [a] + SplitOn(b, seps)
    decreases |a|
  {
    var s := a + [c] + b;
    if |a| == 0 {
      assert s[1..] == b;
    } else {
      assert s[1..] == a[1..] + [c] + b;
      SplitOnPiece(a[1..], c, b, seps);
      assert [a[0]] + a[1..] == a;
    }
  }

  /** A string without separators is a single piece. */
  lemma {:induction false} SplitOnWhole(a: string, seps: set<char>)
    requires forall i :: 0 <= i < |a| ==> a[i] !in seps
    ensures SplitOn(a, seps) == [a]
    decreases |a|
  {
    if |a| > 0 {
      SplitOnWhole(a[1..], seps);
      assert [a[0]] + a[1..] == a;
    }
  }

  /** `toLowerCase` on one character (ASCII letters only). */
  function LowerChar(c: char): char
  {
    if 'A' <= c <= 'Z' then (c as int + 32) as char else c
  }

  /** `s.toLowerCase()` (ASCII letters only). */
  function ToLower(s: string): (r: string)
    ensures |r| == |s|
  {
    seq(|s|, i requires 0 <= i < |s| => LowerChar(s[i]))
  }

  predicate IsDigits(s: string)
  {
    forall i :: 0 <= i < |s| ==> '0' <= s[i] <= '9'
  }

  function DigitChar(d: nat): char
    requires d < 10
  {
    ('0' as int + d) as char
  }

  /** `n.toString()` for a non-negative integer. */
  function NatToString(n: nat): (r: string)
    ensures |r| >= 1 && IsDigits(r)
    decreases n
  {
    if n < 10 then [DigitChar(n)] else NatToString(n / 10) + [DigitChar(n % 10)]
  }

  /** `i.toString()` for an integer. */
  function IntToString(i: int): string
  {
    if i < 0 then "-" + NatToString(-i) else NatToString(i)
  }

  /** The value of a string of decimal digits. */
  function DigitsValue(s: string): nat
    requires IsDigits(s)
    decreases |s|
  {
    if |s| == 0 then 0 else DigitsValue(s[..|s| - 1]) * 10 + (s[|s| - 1] as int - '0' as int)
  }

  /** Appending a digit multiplies the value by ten and adds the digit. */
  lemma DigitsAppend(s: string, c: char)
    requires IsDigits(s) && '0' <= c <= '9'
    ensures IsDigits(s + [c]) && ParseDigits(s + [c]) == Some(DigitsValue(s) * 10 + (c as int - '0' as int))
  {
    var t := s + [c];
    assert t[..|s|] == s && t[|s|] == c;
    assert IsDigits(t) by {
      forall i | 0 <= i < |t| ensures '0' <= t[i] <= '9' {
        if i < |s| {
          assert t[i] == s[i];
        }
      }
    }
    assert DigitsValue(t) == DigitsValue(s) * 10 + (c as int - '0' as int);
  }

  /** A non-empty string of decimal digits read as a number. */
  function ParseDigits(s: string): (r: Option<nat>)
  {
    if |s| > 0 && IsDigits(s) then Some(DigitsValue(s)) else None
  }

  /** Reading back a printed number gives the number. */
  lemma {:induction false} ParsePrinted(n: nat)
    ensures ParseDigits(NatToString(n)) == Some(n)
    decreases n
  {
    var s := NatToString(n);
    if n >= 10 {
      ParsePrinted(n / 10);
      assert s[..|s| - 1] == NatToString(n / 10);
      assert s[|s| - 1] as int - '0' as int == n % 10;
      assert DigitsValue(s) == (n / 10) * 10 + n % 10;
    }
  }

  /** Printing the value of a digit string without a leading zero gives the
      string back. */
  lemma {:induction false} PrintParsed(s: string)
    requires |s| >= 1 && IsDigits(s) && s[0] != '0'
    ensures DigitsValue(s) >= 1 && NatToString(DigitsValue(s)) == s
    decreases |s|
  {
    if |s| == 1 {
      assert s[..0] == [];
      assert [DigitChar(DigitsValue(s))] == s;
    } else {
      var init := s[..|s| - 1];
      var d := s[|s| - 1] as int - '0' as int;
      assert init[0] == s[0];
      PrintParsed(init);
      PrintAppend(DigitsValue(init), d);
      assert s == init + [DigitChar(d)];
    }
  }

  /** Printing ten times a positive number plus a digit appends the digit. */
  lemma PrintAppend(n: nat, d: nat)
    requires n >= 1 && d < 10
    ensures NatToString(n * 10 + d) == NatToString(n) + [DigitChar(d)]
  {
    assert (n * 10 + d) / 10 == n && (n * 10 + d) % 10 == d;
  }
}
