/** Character classes and string helpers used by the contact converter:
    Python's str.strip(), the regular-expression substitution that deletes
    every non-digit, and str.join / str.split on a single separator. */
module Text {

  /** A decimal digit, as matched by `\d` restricted to ASCII. */
  predicate IsDigit(c: char)
  {
    '0' <= c <= '9'
  }

  /** The characters for which Python's str.isspace() holds, hence the ones
      str.strip() removes when called without arguments. */
  predicate IsSpace(c: char)
  {
    c == ' ' || '\t' <= c <= '\r' || '\U{1C}' <= c <= '\U{1F}' || c == '\U{85}' || c == '\U{A0}'
    || c == '\U{1680}' || '\U{2000}' <= c <= '\U{200A}' || c == '\U{2028}' || c == '\U{2029}'
    || c == '\U{202F}' || c == '\U{205F}' || c == '\U{3000}'
  }

  predicate AllSpace(s: string)
  {
    forall i :: 0 <= i < |s| ==> IsSpace(s[i])
  }

  predicate AllDigits(s: string)
  {
    forall i :: 0 <= i < |s| ==> IsDigit(s[i])
  }

  /** str.lstrip(): drops the leading run of whitespace. */
  function StripLeft(s: string): string
    decreases |s|
  {
    if s != [] && IsSpace(s[0]) then StripLeft(s[1..]) else s
  }

  /** str.rstrip(): drops the trailing run of whitespace. */
  function StripRight(s: string): string
    decreases |s|
  {
    if s != [] && IsSpace(s[|s| - 1]) then StripRight(s[..|s| - 1]) else s
  }

  /** str.strip(): drops whitespace at both ends. */
  function Strip(s: string): string
  {
    StripRight(StripLeft(s))
  }

  /** StripLeft keeps the suffix that follows the leading whitespace, and
      that suffix does not begin with whitespace. */
  lemma {:induction false} StripLeftSuffix(s: string)
    ensures var r := StripLeft(s);
      |r| <= |s| && r == s[|s| - |r|..] && AllSpace(s[..|s| - |r|])
      && (r == [] || !IsSpace(r[0]))
    decreases |s|
  {
    if s != [] && IsSpace(s[0]) {
      StripLeftSuffix(s[1..]);
      var r := StripLeft(s[1..]);
      assert s[..|s| - |r|] == [s[0]] + s[1..][..|s| - 1 - |r|];
    }
  }

  /** StripRight keeps the prefix that precedes the trailing whitespace, and
      that prefix does not end with whitespace. */
  lemma {:induction false} StripRightPrefix(s: string)
    ensures var r := StripRight(s);
      |r| <= |s| && r == s[..|r|] && AllSpace(s[|r|..])
      && (r == [] || !IsSpace(r[|r| - 1]))
    decreases |s|
  {
    if s != [] && IsSpace(s[|s| - 1]) {
      StripRightPrefix(s[..|s| - 1]);
      var r := StripRight(s[..|s| - 1]);
      assert s[|r|..] == s[..|s| - 1][|r|..] + [s[|s| - 1]];
    }
  }

  /** Strip keeps the middle slice of `s` that neither begins nor ends with
      whitespace, cutting only whitespace away on either side. */
  lemma StripMiddle(s: string)
    ensures exists i :: 0 <= i <= |s| - |Strip(s)| && Strip(s) == s[i..i + |Strip(s)|]
                        && AllSpace(s[..i]) && AllSpace(s[i + |Strip(s)|..])
    ensures Strip(s) == [] || (!IsSpace(Strip(s)[0]) && !IsSpace(Strip(s)[|Strip(s)| - 1]))
  {
    var left := StripLeft(s);
    StripLeftSuffix(s);
    StripRightPrefix(left);
    var r := StripRight(left);
    assert r == Strip(s);
    var i := |s| - |left|;
    assert left == s[i..];
    assert r == left[..|r|];
    assert r == s[i..i + |r|];
    assert s[i + |r|..] == left[|r|..];
    assert AllSpace(s[..i]) && AllSpace(s[i + |r|..]);
    if r != [] {
      assert r[0] == left[0];
    }
  }

  /** A string that neither begins nor ends with whitespace strips to itself. */
  lemma StripUnchanged(s: string)
    requires s == [] || (!IsSpace(s[0]) && !IsSpace(s[|s| - 1]))
    ensures Strip(s) == s
  {
  }

  /** Stripping twice is stripping once. */
  lemma StripIdempotent(s: string)
    ensures Strip(Strip(s)) == Strip(s)
  {
    StripMiddle(s);
  }

  /** A string strips to nothing exactly when it is all whitespace. */
  lemma StripEmptyIffAllSpace(s: string)
    ensures Strip(s) == [] <==> AllSpace(s)
  {
    StripMiddle(s);
    StripLeftSuffix(s);
    if Strip(s) == [] {
      var i :| 0 <= i <= |s| && AllSpace(s[..i]) && AllSpace(s[i..]);
      forall k | 0 <= k < |s| ensures IsSpace(s[k]) {
        if k < i {
          assert s[k] == s[..i][k];
        } else {
          assert s[k] == s[i..][k - i];
        }
      }
    }
  }

  /** Stripping never introduces a character that was not there. */
  lemma StripKeepsCharacters(s: string, c: char)
    requires c !in s
    ensures c !in Strip(s)
  {
    StripMiddle(s);
    var i :| 0 <= i <= |s| - |Strip(s)| && Strip(s) == s[i..i + |Strip(s)|]
             && AllSpace(s[..i]) && AllSpace(s[i + |Strip(s)|..]);
    var r := Strip(s);
    assert forall k :: 0 <= k < |r| ==> r[k] == s[i + k];
  }

  /** `re.sub(r'\D', '', s)`: deletes every character that is not a digit. */
  function KeepDigits(s: string): string
    decreases |s|
  {
    if s == [] then [] else (if IsDigit(s[0]) then [s[0]] else []) + KeepDigits(s[1..])
  }

  /** The cleaned string holds digits only and is no longer than the input. */
  lemma {:induction false} KeepDigitsAllDigits(s: string)
    ensures AllDigits(KeepDigits(s)) && |KeepDigits(s)| <= |s|
    decreases |s|
  {
    if s != [] {
      KeepDigitsAllDigits(s[1..]);
    }
  }

  /** The cleaned string is empty exactly when the input has no digit. */
  lemma {:induction false} KeepDigitsEmpty(s: string)
    ensures KeepDigits(s) == [] <==> forall i :: 0 <= i < |s| ==> !IsDigit(s[i])
    decreases |s|
  {
    if s != [] {
      KeepDigitsEmpty(s[1..]);
      assert forall i :: 1 <= i < |s| ==> s[i] == s[1..][i - 1];
    }
  }

  /** KeepDigits distributes over concatenation; together with its value on a
      single character this determines it completely. */
  lemma {:induction false} KeepDigitsAppend(a: string, b: string)
    ensures KeepDigits(a + b) == KeepDigits(a) + KeepDigits(b)
    decreases |a|
  {
    if a == [] {
      assert a + b == b;
    } else {
      var head := if IsDigit(a[0]) then [a[0]] else [];
      assert (a + b)[0] == a[0];
      assert (a + b)[1..] == a[1..] + b;
      KeepDigitsAppend(a[1..], b);
      calc {
        KeepDigits(a + b);
        head + KeepDigits(a[1..] + b);
        head + (KeepDigits(a[1..]) + KeepDigits(b));
        (head + KeepDigits(a[1..])) + KeepDigits(b);
      }
    }
  }

  /** A string of digits only is left as it is. */
  lemma {:induction false} KeepDigitsOfDigits(s: string)
    requires AllDigits(s)
    ensures KeepDigits(s) == s
    decreases |s|
  {
    if s != [] {
      KeepDigitsOfDigits(s[1..]);
    }
  }

  /** Cleaning a cleaned phone number changes nothing. */
  lemma KeepDigitsIdempotent(s: string)
    ensures KeepDigits(KeepDigits(s)) == KeepDigits(s)
  {
    KeepDigitsAllDigits(s);
    KeepDigitsOfDigits(KeepDigits(s));
  }

  /** Every digit occurs in the result as often as in the input, and no
      other character occurs in it at all. */
  lemma {:induction false} KeepDigitsCounts(s: string, c: char)
    ensures multiset(KeepDigits(s))[c] == if IsDigit(c) then multiset(s)[c] else 0
    decreases |s|
  {
    if s == [] {
    } else {
      KeepDigitsCounts(s[1..], c);
      assert s == [s[0]] + s[1..];
      assert multiset(s) == multiset{s[0]} + multiset(s[1..]);
      var head: string := if IsDigit(s[0]) then [s[0]] else [];
      assert multiset(head + KeepDigits(s[1..])) == multiset(head) + multiset(KeepDigits(s[1..]));
    }
  }

  /** Appending digits appends them to the cleaned string. */
  lemma KeepDigitsAppendDigits(s: string, digits: string)
    requires AllDigits(digits)
    ensures KeepDigits(s + digits) == KeepDigits(s) + digits
  {
    KeepDigitsOfDigits(digits);
    KeepDigitsAppend(s, digits);
  }

  /** Appending non-digits leaves the cleaned string as it was. */
  lemma KeepDigitsAppendNoDigits(s: string, other: string)
    requires forall i :: 0 <= i < |other| ==> !IsDigit(other[i])
    ensures KeepDigits(s + other) == KeepDigits(s)
  {
    KeepDigitsEmpty(other);
    KeepDigitsAppend(s, other);
  }

  /** Whitespace holds no digit. */
  lemma {:induction false} KeepDigitsOfSpace(s: string)
    requires AllSpace(s)
    ensures KeepDigits(s) == []
    decreases |s|
  {
    if s != [] {
      assert IsSpace(s[0]);
      assert AllSpace(s[1..]) by {
        assert forall k :: 0 <= k < |s| - 1 ==> s[1..][k] == s[k + 1];
      }
      KeepDigitsOfSpace(s[1..]);
    }
  }

  /** Trimming never changes which digits a string holds, or their order:
      whitespace and digits are disjoint classes. */
  lemma StripKeepsDigits(s: string)
    ensures KeepDigits(Strip(s)) == KeepDigits(s)
  {
    var left := StripLeft(s);
    var r := StripRight(left);
    assert Strip(s) == r;
    StripLeftSuffix(s);
    StripRightPrefix(left);
    var before := s[..|s| - |left|];
    var after := left[|r|..];
    assert s == before + left;
    assert left == r + after;
    KeepDigitsOfSpace(before);
    KeepDigitsOfSpace(after);
    KeepDigitsAppend(before, left);
    KeepDigitsAppend(r, after);
    assert KeepDigits(s) == KeepDigits(left);
    assert KeepDigits(left) == KeepDigits(r);
  }

  /** A separator absent from two strings is absent from their concatenation. */
  lemma NoSeparatorConcat(a: string, b: string, sep: char)
    requires sep !in a && sep !in b
    ensures sep !in a + b
  {
    assert forall i :: |a| <= i < |a + b| ==> (a + b)[i] == b[i - |a|];
  }

  /** Pieces free of a separator stay free of it when two lists of them are
      concatenated. */
  lemma NoSeparatorInPieces(a: seq<string>, b: seq<string>, sep: char)
    requires forall i :: 0 <= i < |a| ==> sep !in a[i]
    requires forall i :: 0 <= i < |b| ==> sep !in b[i]
    ensures forall i :: 0 <= i < |a + b| ==> sep !in (a + b)[i]
  {
    forall i | 0 <= i < |a + b| ensures sep !in (a + b)[i] {
      if i < |a| {
        assert (a + b)[i] == a[i];
      } else {
        assert (a + b)[i] == b[i - |a|];
      }
    }
  }

  /** `sep.join(parts)`. */
  function Join(parts: seq<string>, sep: char): string
    decreases |parts|
  {
    if |parts| == 0 then []
    else if |parts| == 1 then parts[0]
    else parts[0] + [sep] + Join(parts[1..], sep)
  }

  /** `s.split(sep)`: the maximal separator-free pieces of `s`; there is one
      more piece than there are separators. */
  function Split(s: string, sep: char): (parts: seq<string>)
    ensures |parts| >= 1
    ensures forall i :: 0 <= i < |parts| ==> sep !in parts[i]
    decreases |s|
  {
    if s == [] then
      [[]]
    else
      var rest := Split(s[1..], sep);
      if s[0] == sep then [[]] + rest
      else [[s[0]] + rest[0]] + rest[1..]
  }

  /** Joining the pieces of a split gives back the string. */
  lemma {:induction false} JoinSplit(s: string, sep: char)
    ensures Join(Split(s, sep), sep) == s
    decreases |s|
  {
    if s != [] {
      var rest := Split(s[1..], sep);
      JoinSplit(s[1..], sep);
      if s[0] == sep {
        assert Split(s, sep) == [[]] + rest;
        assert ([[]] + rest)[1..] == rest;
      } else {
        var parts := [[s[0]] + rest[0]] + rest[1..];
        assert Split(s, sep) == parts;
        if |rest| == 1 {
          assert Join(parts, sep) == [s[0]] + rest[0];
        } else {
          assert parts[1..] == rest[1..];
          assert Join(rest, sep) == rest[0] + [sep] + Join(rest[1..], sep);
          assert Join(parts, sep) == [s[0]] + (rest[0] + [sep] + Join(rest[1..], sep));
        }
      }
    }
  }

  lemma {:induction false} SplitNoSeparator(s: string, sep: char)
    requires sep !in s
    ensures Split(s, sep) == [s]
    decreases |s|
  {
    if s != [] {
      SplitNoSeparator(s[1..], sep);
      assert [s[0]] + s[1..] == s;
    }
  }

  lemma {:induction false} SplitAtFirstSeparator(x: string, sep: char, t: string)
    requires sep !in x
    ensures Split(x + [sep] + t, sep) == [x] + Split(t, sep)
    decreases |x|
  {
    var s := x + [sep] + t;
    if x == [] {
      assert s[1..] == t;
    } else {
      assert s[1..] == x[1..] + [sep] + t;
      SplitAtFirstSeparator(x[1..], sep, t);
      assert [x[0]] + x[1..] == x;
    }
  }

  /** Splitting a join of separator-free pieces gives back the pieces. */
  lemma {:induction false} SplitJoin(parts: seq<string>, sep: char)
    requires |parts| >= 1
    requires forall i :: 0 <= i < |parts| ==> sep !in parts[i]
    ensures Split(Join(parts, sep), sep) == parts
    decreases |parts|
  {
    if |parts| == 1 {
      SplitNoSeparator(parts[0], sep);
    } else {
      SplitJoin(parts[1..], sep);
      SplitAtFirstSeparator(parts[0], sep, Join(parts[1..], sep));
      assert [parts[0]] + parts[1..] == parts;
    }
  }

  /** Joining two non-empty lists of pieces puts one separator between them. */
  lemma {:induction false} JoinConcat(a: seq<string>, b: seq<string>, sep: char)
    requires |a| >= 1 && |b| >= 1
    ensures Join(a + b, sep) == Join(a, sep) + [sep] + Join(b, sep)
    decreases |a|
  {
    if |a| == 1 {
      assert (a + b)[1..] == b;
    } else {
      assert (a + b)[1..] == a[1..] + b;
      JoinConcat(a[1..], b, sep);
    }
  }
  /** A piece that holds the separator joins like the two pieces on either
      side of it. */
  lemma JoinInnerSeparator(a: seq<string>, u: string, v: string, b: seq<string>, sep: char)
    requires |a| >= 1 && |b| >= 1
    ensures Join(a + [u + [sep] + v] + b, sep) == Join(a + [u, v] + b, sep)
  {
    var w := u + [sep] + v;
    assert a + [w] + b == a + ([w] + b);
    assert a + [u, v] + b == a + ([u, v] + b);
    JoinConcat(a, [w] + b, sep);
    JoinConcat([w], b, sep);
    JoinConcat(a, [u, v] + b, sep);
    JoinConcat([u, v], b, sep);
    assert [u, v][1..] == [v];
    assert Join([u, v], sep) == u + [sep] + v;
  }

}
