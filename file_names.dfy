/**
 * The file-name helpers of src/utils/fsUtils.ts: `replaceInvalidChars`, which
 * turns a free text into a safe file name, and `shortenFileName`, which keeps
 * the trailing `_`-separated segments of a name that fit a character budget.
 */
module FileNames {
  import opened JsStrings
  import opened JsArrays

  /** The characters of the class `[/\\?%*:|"<>]` that cannot appear in a file name. */
  predicate IsInvalid(c: char)
  {
    || c == '/' || c == '\\' || c == '?' || c == '%' || c == '*'
    || c == ':' || c == '|' || c == '"' || c == '<' || c == '>'
  }

  /** `fileName.replace(/[/\\?%*:|"<>]/gu, '_')`: every invalid character becomes `_`. */
  function ReplaceWithUnderscore(fileName: string): (r: string)
    ensures |r| == |fileName|
    ensures forall i :: 0 <= i < |r| ==> r[i] == if IsInvalid(fileName[i]) then '_' else fileName[i]
    decreases |fileName|
  {
    if |fileName| == 0 then ""
    else [if IsInvalid(fileName[0]) then '_' else fileName[0]] + ReplaceWithUnderscore(fileName[1..])
  }

  /** `parts.filter(obj => obj.length > 0)`. */
  function NonEmpty(parts: seq<string>): (r: seq<string>)
    ensures forall i :: 0 <= i < |r| ==> r[i] != "" && r[i] in parts
    ensures forall p :: p in parts && p != "" ==> p in r
    decreases |parts|
  {
    if |parts| == 0 then []
    else if parts[0] == "" then NonEmpty(parts[1..])
    else [parts[0]] + NonEmpty(parts[1..])
  }

  /**
   * `NonEmpty` is the filter it models: the pieces it keeps appear in the
   * input's order, and each non-empty piece is kept exactly as often as the
   * input holds it.
   */
  lemma {:induction false} NonEmptyIsFilter(parts: seq<string>)
    ensures IsSubsequence(NonEmpty(parts), parts)
    ensures forall p :: multiset(NonEmpty(parts))[p] == if p == "" then 0 else multiset(parts)[p]
    decreases |parts|
  {
    if |parts| > 0 {
      NonEmptyIsFilter(parts[1..]);
      var r := NonEmpty(parts);
      var rest := NonEmpty(parts[1..]);
      assert parts == [parts[0]] + parts[1..];
      assert multiset(parts) == multiset{parts[0]} + multiset(parts[1..]);
      if parts[0] != "" {
        assert r == [parts[0]] + rest && r[1..] == rest;
        assert multiset(r) == multiset{parts[0]} + multiset(rest);
      }
    }
  }

  /** A string whose `_` only ever separates non-empty runs: no `_` at either end and never two in a row. */
  predicate WellSeparated(s: string)
  {
    && (s != "" ==> s[0] != '_' && s[|s| - 1] != '_')
    && forall i :: 0 <= i < |s| - 1 ==> !(s[i] == '_' && s[i + 1] == '_')
  }

  /** Joining non-empty, `_`-free pieces with `_` gives a well-separated string. */
  lemma {:induction false} JoinWellSeparated(parts: seq<string>)
    requires forall i :: 0 <= i < |parts| ==> parts[i] != "" && '_' !in parts[i]
    ensures WellSeparated(Join(parts, '_'))
    decreases |parts|
  {
    if |parts| > 1 {
      JoinWellSeparated(parts[1..]);
      var head := parts[0];
      var tail := Join(parts[1..], '_');
      var s := Join(parts, '_');
      assert s == head + ['_'] + tail;
      assert tail != "" by {
        assert parts[1..][0] != "";
        if |parts[1..]| > 1 {
          assert tail == parts[1..][0] + ['_'] + Join(parts[1..][1..], '_');
        }
      }
      assert tail[0] != '_' && head[|head| - 1] != '_' by {
        assert head[|head| - 1] in head;
      }
      forall i | 0 <= i < |s| - 1 ensures !(s[i] == '_' && s[i + 1] == '_') {
        if i < |head| - 1 {
          assert s[i] == head[i] && head[i] in head;
        } else if i == |head| - 1 {
          assert s[i] == head[i];
        } else if i == |head| {
          assert s[i + 1] == tail[0];
        } else {
          assert s[i] == tail[i - |head| - 1] && s[i + 1] == tail[i - |head|];
        }
      }
      assert s[|s| - 1] == tail[|tail| - 1];
    }
  }

  /**
   * `replaceInvalidChars`: invalid characters become `_`, the text is split
   * on `_`, empty pieces are dropped and the rest joined with `_`. The result
   * has no invalid character and no `_` at either end or twice in a row.
   */
  function ReplaceInvalidChars(fileName: string): (r: string)
    ensures forall i :: 0 <= i < |r| ==> !IsInvalid(r[i])
    ensures WellSeparated(r)
  {
    var replaced := ReplaceWithUnderscore(fileName);
    var parts := NonEmpty(Split(replaced, '_'));
    JoinWellSeparated(parts);
    JoinKeepsCharacters(parts, '_');
    forall c | c in Join(parts, '_') ensures !IsInvalid(c) {
      if c != '_' {
        var k :| 0 <= k < |parts| && c in parts[k];
        SplitKeepsCharacters(replaced, '_', parts[k], c);
        var i :| 0 <= i < |replaced| && replaced[i] == c;
      }
    }
    Join(parts, '_')
  }

  /** Every character of a join other than the separator comes from one of the pieces. */
  lemma {:induction false} JoinKeepsCharacters(parts: seq<string>, sep: char)
    ensures forall c :: c in Join(parts, sep) && c != sep ==> exists k :: 0 <= k < |parts| && c in parts[k]
    decreases |parts|
  {
    if |parts| > 1 {
      JoinKeepsCharacters(parts[1..], sep);
      forall c | c in Join(parts, sep) && c != sep ensures exists k :: 0 <= k < |parts| && c in parts[k] {
        assert Join(parts, sep) == parts[0] + [sep] + Join(parts[1..], sep);
        if c !in parts[0] {
          var k :| 0 <= k < |parts[1..]| && c in parts[1..][k];
          assert c in parts[k + 1];
        }
      }
    } else if |parts| == 1 {
      assert Join(parts, sep) == parts[0];
    }
  }

  /** Every character of a piece of a split comes from the split string. */
  lemma SplitKeepsCharacters(s: string, sep: char, piece: string, c: char)
    requires piece in Split(s, sep) && c in piece
    ensures c in s
  {
    JoinSplit(s, sep);
    var parts := Split(s, sep);
    var k :| 0 <= k < |parts| && parts[k] == piece;
    JoinContainsPieces(parts, sep, k, c);
  }

  /** A join contains every character of every piece. */
  lemma {:induction false} JoinContainsPieces(parts: seq<string>, sep: char, k: int, c: char)
    requires 0 <= k < |parts| && c in parts[k]
    ensures c in Join(parts, sep)
    decreases |parts|
  {
    if |parts| > 1 {
      assert Join(parts, sep) == parts[0] + [sep] + Join(parts[1..], sep);
      if k > 0 {
        JoinContainsPieces(parts[1..], sep, k - 1, c);
      }
    }
  }

  /** The characters that survive `replaceInvalidChars`: neither invalid nor `_`. */
  function Letters(s: string): (r: string)
    ensures |r| <= |s|
    decreases |s|
  {
    if |s| == 0 then ""
    else (if IsInvalid(s[0]) || s[0] == '_' then "" else [s[0]]) + Letters(s[1..])
  }

  /** The letters of a text are exactly its characters that are neither invalid nor `_`. */
  lemma {:induction false} LettersAreValidCharacters(s: string, c: char)
    ensures c in Letters(s) <==> c in s && !IsInvalid(c) && c != '_'
    decreases |s|
  {
    if |s| > 0 {
      LettersAreValidCharacters(s[1..], c);
      assert s == [s[0]] + s[1..];
    }
  }

  lemma {:induction false} LettersAppend(a: string, b: string)
    ensures Letters(a + b) == Letters(a) + Letters(b)
    decreases |a|
  {
    if |a| > 0 {
      var head := if IsInvalid(a[0]) || a[0] == '_' then "" else [a[0]];
      assert (a + b)[0] == a[0] && (a + b)[1..] == a[1..] + b;
      assert Letters(a + b) == head + Letters(a[1..] + b);
      LettersAppend(a[1..], b);
      assert Letters(a) == head + Letters(a[1..]);
    } else {
      assert a + b == b;
    }
  }

  /** The letters of all pieces, in order. */
  function LettersOfAll(parts: seq<string>): string
    decreases |parts|
  {
    if |parts| == 0 then "" else Letters(parts[0]) + LettersOfAll(parts[1..])
  }

  /** Joining with `_` adds no letters. */
  lemma {:induction false} LettersOfJoin(parts: seq<string>)
    ensures Letters(Join(parts, '_')) == LettersOfAll(parts)
    decreases |parts|
  {
    if |parts| == 1 {
      assert LettersOfAll(parts) == Letters(parts[0]) + LettersOfAll(parts[1..]);
    } else if |parts| > 1 {
      var tail := Join(parts[1..], '_');
      LettersOfJoin(parts[1..]);
      assert Join(parts, '_') == (parts[0] + ['_']) + tail;
      LettersAroundSeparator(parts[0], tail);
      assert LettersOfAll(parts) == Letters(parts[0]) + LettersOfAll(parts[1..]);
    }
  }

  /** A separator between two pieces adds no letters. */
  lemma LettersAroundSeparator(head: string, tail: string)
    ensures Letters((head + ['_']) + tail) == Letters(head) + Letters(tail)
  {
    LettersAppend(head + ['_'], tail);
    LettersAppend(head, ['_']);
    assert Letters(['_']) == "" by {
      assert ['_'][1..] == "";
    }
  }

  /** Dropping empty pieces drops no letters. */
  lemma {:induction false} LettersOfNonEmpty(parts: seq<string>)
    ensures LettersOfAll(NonEmpty(parts)) == LettersOfAll(parts)
    decreases |parts|
  {
    if |parts| > 0 {
      LettersOfNonEmpty(parts[1..]);
      if parts[0] != "" {
        assert ([parts[0]] + NonEmpty(parts[1..]))[1..] == NonEmpty(parts[1..]);
      }
    }
  }

  /** Replacing invalid characters by `_` drops exactly the invalid characters from the letters. */
  lemma {:induction false} LettersOfReplace(s: string)
    ensures Letters(ReplaceWithUnderscore(s)) == Letters(s)
    decreases |s|
  {
    if |s| > 0 {
      LettersOfReplace(s[1..]);
      assert ReplaceWithUnderscore(s)[1..] == ReplaceWithUnderscore(s[1..]);
    }
  }

  /**
   * `replaceInvalidChars` keeps every character that is neither invalid nor
   * `_`, in its original order, and adds none.
   */
  lemma ReplaceInvalidCharsKeepsLetters(fileName: string)
    ensures Letters(ReplaceInvalidChars(fileName)) == Letters(fileName)
  {
    var replaced := ReplaceWithUnderscore(fileName);
    var parts := Split(replaced, '_');
    LettersOfJoin(NonEmpty(parts));
    LettersOfNonEmpty(parts);
    LettersOfJoin(parts);
    JoinSplit(replaced, '_');
    LettersOfReplace(fileName);
  }

  /** A text without invalid characters is left alone by the replacement. */
  lemma ReplaceWithUnderscoreOfValid(s: string)
    requires forall i :: 0 <= i < |s| ==> !IsInvalid(s[i])
    ensures ReplaceWithUnderscore(s) == s
  {
  }

  /** Non-empty pieces survive the filter unchanged. */
  lemma {:induction false} NonEmptyOfNonEmpty(parts: seq<string>)
    requires forall i :: 0 <= i < |parts| ==> parts[i] != ""
    ensures NonEmpty(parts) == parts
    decreases |parts|
  {
    if |parts| > 0 {
      NonEmptyOfNonEmpty(parts[1..]);
      assert parts == [parts[0]] + parts[1..];
    }
  }

  /** `replaceInvalidChars` is idempotent: a sanitised name is already safe. */
  lemma ReplaceInvalidCharsIdempotent(fileName: string)
    ensures ReplaceInvalidChars(ReplaceInvalidChars(fileName)) == ReplaceInvalidChars(fileName)
  {
    var r := ReplaceInvalidChars(fileName);
    var parts := NonEmpty(Split(ReplaceWithUnderscore(fileName), '_'));
    assert r == Join(parts, '_');
    ReplaceWithUnderscoreOfValid(r);
    if |parts| == 0 {
      assert Split(r, '_') == [""];
      assert NonEmpty([""]) == [];
    } else {
      SplitJoin(parts, '_');
      NonEmptyOfNonEmpty(parts);
    }
  }

  /** Filtering a concatenation filters each part. */
  lemma {:induction false} NonEmptyAppend(p: seq<string>, q: seq<string>)
    ensures NonEmpty(p + q) == NonEmpty(p) + NonEmpty(q)
    decreases |p|
  {
    if |p| > 0 {
      assert (p + q)[0] == p[0] && (p + q)[1..] == p[1..] + q;
      NonEmptyAppend(p[1..], q);
    } else {
      assert p + q == q;
    }
  }

  /** Replacing invalid characters works character by character. */
  lemma {:induction false} ReplaceWithUnderscoreAppend(a: string, b: string)
    ensures ReplaceWithUnderscore(a + b) == ReplaceWithUnderscore(a) + ReplaceWithUnderscore(b)
    decreases |a|
  {
    if |a| > 0 {
      assert (a + b)[0] == a[0] && (a + b)[1..] == a[1..] + b;
      ReplaceWithUnderscoreAppend(a[1..], b);
    } else {
      assert a + b == b;
    }
  }

  /**
   * `replaceInvalidChars` gives the empty name exactly for a text without
   * letters, that is one made only of invalid characters and `_`.
   */
  lemma ReplaceInvalidCharsEmpty(fileName: string)
    ensures ReplaceInvalidChars(fileName) == "" <==> Letters(fileName) == ""
  {
    var r := ReplaceInvalidChars(fileName);
    ReplaceInvalidCharsKeepsLetters(fileName);
    if r != "" {
      assert r[0] != '_' && !IsInvalid(r[0]);
      assert Letters(r) == [r[0]] + Letters(r[1..]);
    }
  }

  /**
   * An invalid character or a `_` between two texts separates them by exactly
   * one `_`: the result is the two sides' names joined by `_`, or the only
   * non-empty one. So `a/b` becomes `a_b` and `x__y` becomes `x_y`.
   */
  lemma ReplaceInvalidCharsAround(a: string, c: char, b: string)
    requires IsInvalid(c) || c == '_'
    ensures var x := ReplaceInvalidChars(a);
            var y := ReplaceInvalidChars(b);
            ReplaceInvalidChars(a + [c] + b) == if x == "" then y else if y == "" then x else x + "_" + y
    ensures Letters(a) != "" && Letters(b) != "" ==>
              ReplaceInvalidChars(a + [c] + b) == ReplaceInvalidChars(a) + "_" + ReplaceInvalidChars(b)
  {
    var ra := ReplaceWithUnderscore(a);
    var rb := ReplaceWithUnderscore(b);
    assert ReplaceWithUnderscore(a + [c] + b) == ra + ['_'] + rb by {
      ReplaceWithUnderscoreAppend(a + [c], b);
      ReplaceWithUnderscoreAppend(a, [c]);
    }
    SplitAround(ra, rb, '_');
    var p := NonEmpty(Split(ra, '_'));
    var q := NonEmpty(Split(rb, '_'));
    NonEmptyAppend(Split(ra, '_'), Split(rb, '_'));
    if |p| == 0 {
      assert p + q == q;
    } else if |q| == 0 {
      assert p + q == p;
    } else {
      JoinAppend(p, q, '_');
      assert Join(p, '_') != "" && Join(q, '_') != "" by {
        assert p[0] != "" && q[0] != "";
        if |p| > 1 {
          assert Join(p, '_') == p[0] + ['_'] + Join(p[1..], '_');
        }
        if |q| > 1 {
          assert Join(q, '_') == q[0] + ['_'] + Join(q[1..], '_');
        }
      }
    }
    ReplaceInvalidCharsEmpty(a);
    ReplaceInvalidCharsEmpty(b);
  }

  /** The pieces of a well-separated text split on `_` are all non-empty. */
  lemma {:induction false} SplitWellSeparated(s: string)
    requires s != "" && WellSeparated(s)
    ensures forall i :: 0 <= i < |Split(s, '_')| ==> Split(s, '_')[i] != ""
    decreases |s|
  {
    var rest := Split(s[1..], '_');
    if |s| > 1 {
      if s[1] != '_' {
        assert WellSeparated(s[1..]) by {
          forall i | 0 <= i < |s[1..]| - 1 ensures !(s[1..][i] == '_' && s[1..][i + 1] == '_') {
            assert s[1..][i] == s[i + 1] && s[1..][i + 1] == s[i + 2];
          }
        }
        SplitWellSeparated(s[1..]);
      } else {
        assert s[1..][0] == '_' && s[1..][1..] == s[2..];
        assert s[|s| - 1] != '_';
        assert |s| > 2;
        assert s[2] != '_' by {
          assert !(s[1] == '_' && s[2] == '_');
        }
        assert WellSeparated(s[2..]) by {
          forall i | 0 <= i < |s[2..]| - 1 ensures !(s[2..][i] == '_' && s[2..][i + 1] == '_') {
            assert s[2..][i] == s[i + 2] && s[2..][i + 1] == s[i + 3];
          }
        }
        SplitWellSeparated(s[2..]);
        assert rest[1..] == Split(s[2..], '_');
      }
    }
  }

  /**
   * A name that is already safe (no invalid character, `_` only between
   * non-empty runs) is returned unchanged.
   */
  lemma ReplaceInvalidCharsOfSafe(fileName: string)
    requires forall i :: 0 <= i < |fileName| ==> !IsInvalid(fileName[i])
    requires WellSeparated(fileName)
    ensures ReplaceInvalidChars(fileName) == fileName
  {
    ReplaceWithUnderscoreOfValid(fileName);
    var parts := Split(fileName, '_');
    if fileName == "" {
      assert NonEmpty([""]) == [];
    } else {
      SplitWellSeparated(fileName);
      NonEmptyOfNonEmpty(parts);
      JoinSplit(fileName, '_');
    }
  }

  /** A path separator becomes one `_`. */
  lemma SeparatorBecomesUnderscore()
    ensures ReplaceInvalidChars("a/b") == "a_b"
  {
    assert ReplaceInvalidChars("a") == "a" && ReplaceInvalidChars("b") == "b" by {
      ReplaceInvalidCharsOfSafe("a");
      ReplaceInvalidCharsOfSafe("b");
    }
    assert Letters("a") != "" && Letters("b") != "";
    assert "a/b" == "a" + ['/'] + "b";
    ReplaceInvalidCharsAround("a", '/', "b");
  }

  /** A run of `_` collapses to one. */
  lemma UnderscoresCollapse()
    ensures ReplaceInvalidChars("x__y") == "x_y"
  {
    assert ReplaceInvalidChars("_y") == "y" by {
      assert ReplaceInvalidChars("") == "" && ReplaceInvalidChars("y") == "y" by {
        ReplaceInvalidCharsOfSafe("");
        ReplaceInvalidCharsOfSafe("y");
      }
      assert "_y" == "" + ['_'] + "y";
      ReplaceInvalidCharsAround("", '_', "y");
    }
    assert ReplaceInvalidChars("x") == "x" by {
      ReplaceInvalidCharsOfSafe("x");
    }
    assert "x__y" == "x" + ['_'] + "_y";
    ReplaceInvalidCharsAround("x", '_', "_y");
  }

  /**
   * The segments the loop of `shortenFileName` keeps, in their original order,
   * and the `charLength` it ends with. The loop visits the segments back to
   * front: a segment is kept when its length plus the running `charLength` is
   * below `maxChars` (which then grows by the length plus one for the `_`);
   * a segment that does not fit is kept anyway when nothing has been kept yet.
   */
  function KeptSegments(segments: seq<string>, maxChars: int): (kept: (seq<string>, int))
    decreases |segments|
  {
    if |segments| == 0 then ([], 0)
    else
      Visit(segments[0], KeptSegments(segments[1..], maxChars), maxChars)
  }

  /** One turn of the loop of `shortenFileName`: the segment `item` against the state so far. */
  function Visit(item: string, state: (seq<string>, int), maxChars: int): (seq<string>, int)
  {
    var (kept, charLength) := state;
    if |item| + charLength < maxChars then ([item] + kept, charLength + |item| + 1)
    else if |kept| == 0 then ([item], charLength)
    else (kept, charLength)
  }

  /** `a` is `b` with some elements left out. */
  predicate IsSubsequence(a: seq<string>, b: seq<string>)
    decreases |b|
  {
    |a| == 0 || (|b| > 0 && ((a[0] == b[0] && IsSubsequence(a[1..], b[1..])) || IsSubsequence(a, b[1..])))
  }

  /**
   * The kept segments are some of the segments in their order, and always
   * include the last segment.
   */
  lemma {:induction false} KeptSegmentsShape(segments: seq<string>, maxChars: int)
    ensures var kept := KeptSegments(segments, maxChars).0;
            && IsSubsequence(kept, segments)
            && (|segments| > 0 ==> |kept| > 0 && kept[|kept| - 1] == segments[|segments| - 1])
    decreases |segments|
  {
    if |segments| > 0 {
      KeptSegmentsShape(segments[1..], maxChars);
      var kept := KeptSegments(segments, maxChars).0;
      var rest := KeptSegments(segments[1..], maxChars).0;
      if |kept| > 0 && kept != rest {
        assert kept[0] == segments[0] && kept[1..] == rest;
      }
    }
  }

  /**
   * While the last segment fits the budget, `charLength` is one more than the
   * length of the joined kept segments and at most `maxChars`.
   */
  lemma {:induction false} KeptSegmentsLength(segments: seq<string>, maxChars: int)
    requires |segments| > 0 && |segments[|segments| - 1]| < maxChars
    ensures var (kept, charLength) := KeptSegments(segments, maxChars);
            |Join(kept, '_')| + 1 == charLength <= maxChars
    decreases |segments|
  {
    if |segments| == 1 {
      assert segments[1..] == [];
    } else {
      KeptSegmentsLength(segments[1..], maxChars);
      KeptSegmentsShape(segments[1..], maxChars);
      var (rest, charLength) := KeptSegments(segments[1..], maxChars);
      var item := segments[0];
      if |item| + charLength < maxChars {
        assert ([item] + rest)[1..] == rest;
        assert Join([item] + rest, '_') == item + ['_'] + Join(rest, '_');
      }
    }
  }

  /** A join ends with its last piece. */
  lemma {:induction false} JoinEndsWithLast(parts: seq<string>, sep: char)
    requires |parts| > 0
    ensures var j := Join(parts, sep);
            var last := parts[|parts| - 1];
            |last| <= |j| && j[|j| - |last|..] == last
    decreases |parts|
  {
    if |parts| > 1 {
      JoinEndsWithLast(parts[1..], sep);
      assert Join(parts, sep) == parts[0] + [sep] + Join(parts[1..], sep);
    }
  }

  function Max(a: int, b: int): int
  {
    if a < b then b else a
  }

  /**
   * `shortenFileName(fileName, maxChars)`: the kept segments joined with `_`,
   * cut to their last `maxChars` characters. When the last segment fits, the
   * result is the joined kept segments themselves and shorter than
   * `maxChars`; when it does not, the result is the last `maxChars`
   * characters of the last segment, and empty for a budget of zero or less.
   */
  function ShortenedName(fileName: string, maxChars: int): string
  {
    Shortened(Split(fileName, '_'), maxChars)
  }

  /**
   * The kept segments joined with `_` and cut to their last `maxChars`
   * characters: when the last segment fits, the joined kept segments
   * themselves, shorter than `maxChars`; otherwise the last `maxChars`
   * characters of the last segment, empty when `maxChars` is not positive.
   */
  function Shortened(segments: seq<string>, maxChars: int): (r: string)
    requires |segments| >= 1
    ensures var last := segments[|segments| - 1];
            && (|last| < maxChars ==> r == Join(KeptSegments(segments, maxChars).0, '_') && |r| < maxChars)
            && (0 <= maxChars <= |last| ==> r == last[|last| - maxChars..])
            && (maxChars <= 0 ==> r == "")
    ensures |r| <= Max(maxChars, 0)
  {
    var kept := KeptSegments(segments, maxChars).0;
    var joined := Join(kept, '_');
    var last := segments[|segments| - 1];
    KeptSegmentsShape(segments, maxChars);
    JoinEndsWithLast(kept, '_');
    assert |last| < maxChars ==> |joined| < maxChars by {
      if |last| < maxChars {
        KeptSegmentsLength(segments, maxChars);
      }
    }
    TailOfJoined(joined, last, maxChars);
    SliceFrom(joined, Max(|joined| - maxChars, 0))
  }

  /** The last `maxChars` characters of a text ending in `last`. */
  lemma TailOfJoined(joined: string, last: string, maxChars: int)
    requires |last| <= |joined| && joined[|joined| - |last|..] == last
    ensures var r := SliceFrom(joined, Max(|joined| - maxChars, 0));
            && (|joined| < maxChars ==> r == joined)
            && (0 <= maxChars <= |last| ==> r == last[|last| - maxChars..])
            && (maxChars <= 0 ==> r == "")
            && |r| <= Max(maxChars, 0)
  {
    var r := SliceFrom(joined, Max(|joined| - maxChars, 0));
    if 0 <= maxChars <= |last| {
      assert r == joined[|joined| - maxChars..];
      assert joined[|joined| - maxChars..] == joined[|joined| - |last|..][|last| - maxChars..];
    }
    if |joined| < maxChars {
      assert r == joined[0..];
    }
  }

  /**
   * The kept segments are segments of the name in their order, ending with
   * its last segment.
   */
  lemma ShortenedNameKeepsLastSegment(fileName: string, maxChars: int)
    ensures var segments := Split(fileName, '_');
            var kept := KeptSegments(segments, maxChars).0;
            && IsSubsequence(kept, segments)
            && |kept| > 0 && kept[|kept| - 1] == segments[|segments| - 1]
  {
    KeptSegmentsShape(Split(fileName, '_'), maxChars);
  }

  /** The loop of `shortenFileName`, over the segments back to front, with the array it pushes to. */
  method ShortenFileName(fileName: string, maxChars: int) returns (name: string)
    ensures name == ShortenedName(fileName, maxChars)
  {
    var items := Split(fileName, '_');
    var result: seq<string> := [];
    var charLength := 0;
    var i := |items|;
    while i > 0
      invariant 0 <= i <= |items|
      invariant (Reversed(result), charLength) == KeptSegments(items[i..], maxChars)
    {
      i := i - 1;
      var item := items[i];
      assert items[i..][1..] == items[i + 1..];
      assert KeptSegments(items[i..], maxChars) == Visit(item, (Reversed(result), charLength), maxChars);
      if |item| + charLength < maxChars {
        ReversedPush(result, item);
        result := result + [item];
        charLength := charLength + |item| + 1;
      } else if |result| == 0 {
        assert Reversed([item]) == [item] by {
          assert [item][1..] == [];
        }
        result := [item];
      }
    }
    assert items[0..] == items;
    var joinedString := Join(Reversed(result), '_');
    name := SliceFrom(joinedString, Max(|joinedString| - maxChars, 0));
  }
}
