/**
  String helpers with JavaScript semantics: `split` on a one-character
  separator, `join`, and the ASCII part of `toLowerCase` / `toUpperCase`.
 */
module Text {

  /** `s.split(sep)`: always at least one part, and no part holds `sep`. */
  function Split(s: string, sep: char): (parts: seq<string>)
    ensures |parts| >= 1
    ensures forall i :: 0 <= i < |parts| ==> sep !in parts[i]
    decreases |s|
  {
    if |s| == 0 then [""]
    else
      var rest := Split(s[1..], sep);
      if s[0] == sep then [""] + rest
      else [[s[0]] + rest[0]] + rest[1..]
  }

  /** `parts.join(sep)`; the empty list joins to the empty string. */
  function Join(parts: seq<string>, sep: string): string
  {
    if |parts| == 0 then ""
    else if |parts| == 1 then parts[0]
    else parts[0] + sep + Join(parts[1..], sep)
  }

  /** `parts.join('')`. */
  function Concat(parts: seq<string>): string
  {
    if |parts| == 0 then "" else parts[0] + Concat(parts[1..])
  }

  /** The last element of a `split`, as `parts[parts.length - 1]`. */
  function LastPart(s: string, sep: char): string
  {
    var parts := Split(s, sep);
    parts[|parts| - 1]
  }

  /** `parts.filter(p => p)`: the empty string is the only falsy string. */
  function NonEmpty(parts: seq<string>): (kept: seq<string>)
    ensures forall i :: 0 <= i < |kept| ==> kept[i] != ""
    ensures forall p :: p in kept <==> p in parts && p != ""
  {
    if |parts| == 0 then []
    else if parts[0] == "" then NonEmpty(parts[1..])
    else [parts[0]] + NonEmpty(parts[1..])
  }

  function LowerChar(c: char): char
  {
    if 'A' <= c <= 'Z' then (c as int + 32) as char else c
  }

  function UpperChar(c: char): char
  {
    if 'a' <= c <= 'z' then (c as int - 32) as char else c
  }

  function ToLower(s: string): (r: string)
    ensures |r| == |s|
    ensures forall i :: 0 <= i < |s| ==> r[i] == LowerChar(s[i])
  {
    if |s| == 0 then "" else [LowerChar(s[0])] + ToLower(s[1..])
  }

  function ToUpper(s: string): (r: string)
    ensures |r| == |s|
    ensures forall i :: 0 <= i < |s| ==> r[i] == UpperChar(s[i])
  {
    if |s| == 0 then "" else [UpperChar(s[0])] + ToUpper(s[1..])
  }

  /** `s.charAt(0).toUpperCase() + s.slice(1)`. */
  function Capitalize(s: string): string
  {
    if |s| == 0 then "" else [UpperChar(s[0])] + s[1..]
  }

  /** Joining the parts of a split gives back the original string. */
  lemma {:induction false} JoinSplit(s: string, sep: char)
    ensures Join(Split(s, sep), [sep]) == s
    decreases |s|
  {
    if |s| > 0 {
      JoinSplit(s[1..], sep);
      var rest := Split(s[1..], sep);
      if s[0] == sep {
        assert Split(s, sep) == [""] + rest;
      } else {
        var parts := Split(s, sep);
        assert parts == [[s[0]] + rest[0]] + rest[1..];
        if |rest| == 1 {
          assert Join(parts, [sep]) == [s[0]] + rest[0];
        } else {
          assert rest == [rest[0]] + rest[1..];
          assert Join(rest, [sep]) == rest[0] + [sep] + Join(rest[1..], [sep]);
          assert Join(parts, [sep]) == [s[0]] + rest[0] + [sep] + Join(rest[1..], [sep]);
        }
        assert s == [s[0]] + s[1..];
      }
    }
  }

  /** Splitting a joined list of separator-free parts gives back the parts. */
  lemma {:induction false} SplitJoin(parts: seq<string>, sep: char)
    requires |parts| >= 1
    requires forall i :: 0 <= i < |parts| ==> sep !in parts[i]
    ensures Split(Join(parts, [sep]), sep) == parts
    decreases |parts|, |parts[0]|
  {
    var p := parts[0];
    if |p| == 0 {
      if |parts| > 1 {
        SplitJoin(parts[1..], sep);
        var j := Join(parts, [sep]);
        assert j == [sep] + Join(parts[1..], [sep]);
        assert j[1..] == Join(parts[1..], [sep]);
        assert Split(j, sep) == [""] + parts[1..];
      }
    } else {
      var tailParts := [p[1..]] + parts[1..];
      forall i | 0 <= i < |tailParts| ensures sep !in tailParts[i] {
        if i == 0 {
          assert forall k :: 0 <= k < |p[1..]| ==> p[1..][k] == p[k + 1];
        } else {
          assert tailParts[i] == parts[i];
        }
      }
      SplitJoin(tailParts, sep);
      var j := Join(parts, [sep]);
      JoinHead(parts, sep);
      assert j[0] == p[0];
      assert j[1..] == Join(tailParts, [sep]);
      var rest := Split(j[1..], sep);
      assert rest == tailParts;
      assert Split(j, sep) == [[p[0]] + p[1..]] + parts[1..];
      assert [p[0]] + p[1..] == p;
      assert parts == [p] + parts[1..];
    }
  }

  /** The head part of a join is a prefix of it; stripping the first character commutes. */
  lemma JoinHead(parts: seq<string>, sep: char)
    requires |parts| >= 1 && |parts[0]| >= 1
    ensures Join(parts, [sep]) == [parts[0][0]] + Join([parts[0][1..]] + parts[1..], [sep])
  {
    var p := parts[0];
    assert p == [p[0]] + p[1..];
    if |parts| > 1 {
      assert ([p[1..]] + parts[1..])[1..] == parts[1..];
    }
  }

  /**
    The last part of a split is the suffix after the last separator: it holds no
    separator and is either the whole string or preceded by a separator.
   */
  lemma {:induction false} LastPartIsSuffixAfterLastSeparator(s: string, sep: char)
    ensures var r := LastPart(s, sep);
      && sep !in r
      && |r| <= |s|
      && s[|s| - |r|..] == r
      && (|r| == |s| || s[|s| - |r| - 1] == sep)
    decreases |s|
  {
    if |s| > 0 {
      var t := s[1..];
      LastPartIsSuffixAfterLastSeparator(t, sep);
      LastPartStep(s, sep);
      var r := LastPart(s, sep);
      if r != s {
        assert s[|s| - |r|..] == t[|t| - |r|..];
        if |r| < |t| {
          assert s[|s| - |r| - 1] == t[|t| - |r| - 1];
        }
      }
    }
  }

  /**
    One step of the split from the front: the last part is either the whole
    string, or the last part of the tail, which is then the whole tail only
    when the first character is a separator.
   */
  lemma LastPartStep(s: string, sep: char)
    requires |s| > 0
    ensures var r' := LastPart(s[1..], sep);
      || LastPart(s, sep) == s
      || (LastPart(s, sep) == r' && (|r'| == |s| - 1 ==> s[0] == sep))
  {
    var t := s[1..];
    var rest := Split(t, sep);
    if s[0] == sep {
      assert Split(s, sep) == [""] + rest;
    } else if |rest| == 1 {
      assert Split(s, sep) == [[s[0]] + rest[0]];
      JoinSplit(t, sep);
      assert rest[0] == t;
      assert [s[0]] + t == s;
    } else {
      var parts := Split(s, sep);
      assert parts == [[s[0]] + rest[0]] + rest[1..];
      assert parts[|parts| - 1] == rest[|rest| - 1];
      JoinSplit(t, sep);
      JoinLength(rest, sep);
      assert |LastPart(t, sep)| < |t|;
    }
  }

  /** A join of several parts is longer than its last part. */
  lemma {:induction false} JoinLength(parts: seq<string>, sep: char)
    requires |parts| >= 2
    ensures |Join(parts, [sep])| > |parts[|parts| - 1]|
    decreases |parts|
  {
    if |parts| > 2 {
      JoinLength(parts[1..], sep);
    }
  }

  /** Splitting at a separator splits the parts: `(a + sep + b).split(sep)` is the two splits. */
  lemma {:induction false} SplitAppend(a: string, sep: char, b: string)
    ensures Split(a + [sep] + b, sep) == Split(a, sep) + Split(b, sep)
    decreases |a|
  {
    var s := a + [sep] + b;
    if |a| == 0 {
      assert s[1..] == b;
    } else {
      assert s[1..] == a[1..] + [sep] + b;
      SplitAppend(a[1..], sep, b);
      var rest := Split(a[1..], sep);
      var tail := Split(b, sep);
      assert s[0] == a[0];
      if a[0] == sep {
        assert [""] + (rest + tail) == [""] + rest + tail;
      } else {
        ExtendFirstPart(a[0], rest, tail);
      }
    }
  }

  /** Whatever precedes the last separator, the last part is the text after it. */
  lemma LastPartAfterSeparator(a: string, sep: char, b: string)
    requires sep !in b
    ensures LastPart(a + [sep] + b, sep) == b
  {
    SplitAppend(a, sep, b);
    SplitJoin([b], sep);
    assert Join([b], [sep]) == b;
    assert Split(b, sep) == [b];
  }

  /**
    Capitalising changes only the first character, and only its case: the
    length, the tail and the lower-cased form stay the same.
   */
  lemma CapitalizeChangesOnlyFirstCase(s: string)
    ensures |Capitalize(s)| == |s|
    ensures |s| > 0 ==> Capitalize(s)[1..] == s[1..]
    ensures ToLower(Capitalize(s)) == ToLower(s)
    ensures |s| > 0 ==> !('a' <= Capitalize(s)[0] <= 'z')
  {
    if |s| > 0 {
      var c := Capitalize(s);
      assert LowerChar(UpperChar(s[0])) == LowerChar(s[0]);
      assert forall i :: 0 < i < |s| ==> c[i] == s[i];
      assert forall i :: 0 <= i < |s| ==> ToLower(c)[i] == ToLower(s)[i];
    }
  }

  lemma ExtendFirstPart(c: char, rest: seq<string>, tail: seq<string>)
    requires |rest| >= 1
    ensures [[c] + (rest + tail)[0]] + (rest + tail)[1..] == [[c] + rest[0]] + rest[1..] + tail
  {
    assert (rest + tail)[1..] == rest[1..] + tail;
  }

  lemma {:induction false} NonEmptyAppend(xs: seq<string>, ys: seq<string>)
    ensures NonEmpty(xs + ys) == NonEmpty(xs) + NonEmpty(ys)
    decreases |xs|
  {
    if |xs| == 0 {
      assert xs + ys == ys;
    } else {
      assert (xs + ys)[1..] == xs[1..] + ys;
      NonEmptyAppend(xs[1..], ys);
    }
  }

  /**
    A single part is kept exactly when it is non-empty. With `NonEmptyAppend`
    this fixes the filter on every list, order and repeats included.
   */
  lemma NonEmptySingle(p: string)
    ensures NonEmpty([p]) == (if p == "" then [] else [p])
  {
    assert [p][1..] == [];
  }

  lemma {:induction false} ConcatAppend(xs: seq<string>, ys: seq<string>)
    ensures Concat(xs + ys) == Concat(xs) + Concat(ys)
    decreases |xs|
  {
    if |xs| == 0 {
      assert xs + ys == ys;
    } else {
      assert (xs + ys)[1..] == xs[1..] + ys;
      ConcatAppend(xs[1..], ys);
    }
  }
}
