/** String handling of the upload route: `name.split(".")` and its last part
    (src/index.ts:61-62), key composition (src/index.ts:65), the public URL
    (src/index.ts:74) and `key.endsWith(...)` (src/index.ts:86). */
module Filenames {

  /** `s.split(sep)` for a one-character separator: the maximal runs between
      separators, in order, including empty runs at either end. */
  function Split(s: string, sep: char): (parts: seq<string>)
    ensures |parts| >= 1
    ensures forall i :: 0 <= i < |parts| ==> sep !in parts[i]
    ensures sep in s <==> |parts| > 1
    ensures |parts| == 1 ==> parts[0] == s
    decreases |s|
  {
    if |s| == 0 then [""]
    else
      var rest := Split(s[1..], sep);
      if s[0] == sep then [""] + rest
      else [[s[0]] + rest[0]] + rest[1..]
  }

  /** The last part of a split is a suffix of the string, and when there
      is more than one part a separator stands right before it. */
  lemma {:induction false} SplitLastPart(s: string, sep: char)
    ensures var parts := Split(s, sep);
            var last := parts[|parts| - 1];
            && |last| <= |s| && s[|s| - |last|..] == last
            && (|parts| > 1 ==> |last| < |s| && s[|s| - |last| - 1] == sep)
    decreases |s|
  {
    if |s| > 0 {
      SplitLastPart(s[1..], sep);
      var parts, rest := Split(s, sep), Split(s[1..], sep);
      var last := rest[|rest| - 1];
      if s[0] == sep {
        assert parts == [""] + rest;
        assert parts[|parts| - 1] == last;
      } else if |rest| > 1 {
        assert parts == [[s[0]] + rest[0]] + rest[1..];
        assert parts[|parts| - 1] == last;
      } else {
        assert parts == [s];
      }
    }
  }

  /** `parts.join(sep)`: the inverse of Split. */
  function Join(parts: seq<string>, sep: char): string
    requires |parts| >= 1
  {
    if |parts| == 1 then parts[0] else parts[0] + [sep] + Join(parts[1..], sep)
  }

  /** Splitting loses nothing: joining the parts gives the string back. */
  lemma {:induction false} JoinSplit(s: string, sep: char)
    ensures Join(Split(s, sep), sep) == s
    decreases |s|
  {
    if |s| > 0 {
      var rest := Split(s[1..], sep);
      JoinSplit(s[1..], sep);
      if s[0] == sep {
        assert Split(s, sep) == [""] + rest;
        assert Split(s, sep)[1..] == rest;
      } else if |rest| == 1 {
        assert Split(s, sep) == [[s[0]] + rest[0]];
      } else {
        var parts := Split(s, sep);
        assert parts == [[s[0]] + rest[0]] + rest[1..];
        assert parts[1..] == rest[1..];
        assert Join(rest, sep) == rest[0] + [sep] + Join(rest[1..], sep);
        assert s == [s[0]] + s[1..];
      }
    }
  }

  /** Splitting `a + sep + t` with `a` free of separators yields `a`
      followed by the parts of `t`. */
  lemma {:induction false} SplitAfterFirstSeparator(a: string, sep: char, t: string)
    requires sep !in a
    ensures Split(a + [sep] + t, sep) == [a] + Split(t, sep)
    decreases |a|
  {
    var s := a + [sep] + t;
    if |a| == 0 {
      assert s == [sep] + t;
      assert s[1..] == t;
      assert Split(s, sep) == [""] + Split(t, sep);
    } else {
      assert s[1..] == a[1..] + [sep] + t;
      SplitAfterFirstSeparator(a[1..], sep, t);
      var rest := Split(s[1..], sep);
      assert rest == [a[1..]] + Split(t, sep);
      assert s[0] == a[0] != sep;
      assert Split(s, sep) == [[a[0]] + rest[0]] + rest[1..];
      assert [a[0]] + a[1..] == a;
      assert rest[1..] == Split(t, sep);
    }
  }

  /** Joining parts that contain no separator and splitting again gives the
      same parts back. */
  lemma {:induction false} SplitJoin(parts: seq<string>, sep: char)
    requires |parts| >= 1
    requires forall i :: 0 <= i < |parts| ==> sep !in parts[i]
    ensures Split(Join(parts, sep), sep) == parts
    decreases |parts|
  {
    if |parts| == 1 {
      assert sep !in Join(parts, sep);
    } else {
      SplitJoin(parts[1..], sep);
      SplitAfterFirstSeparator(parts[0], sep, Join(parts[1..], sep));
      assert parts == [parts[0]] + parts[1..];
    }
  }

  /** The extension of an uploaded file: the last part of its name split at
      `.`. It is a suffix of the name, holds no `.`, and is preceded by a `.`
      whenever the name has one; with no `.` it is the whole name. */
  function ExtensionOf(filename: string): (ext: string)
    ensures '.' !in ext
    ensures |ext| <= |filename| && filename[|filename| - |ext|..] == ext
    ensures '.' in filename ==> |ext| < |filename| && filename[|filename| - |ext| - 1] == '.'
    ensures '.' !in filename ==> ext == filename
  {
    SplitLastPart(filename, '.');
    var parts := Split(filename, '.');
    parts[|parts| - 1]
  }

  /** The extension is exactly the text after the last `.`: whenever the name
      is `stem + "." + e` with no `.` in `e`, the extension is `e`. */
  lemma ExtensionIsTextAfterLastDot(stem: string, e: string)
    requires '.' !in e
    ensures ExtensionOf(stem + "." + e) == e
  {
    var f := stem + "." + e;
    var ext := ExtensionOf(f);
    assert f[|f| - |e| - 1] == '.';
    assert f[|f| - |e|..] == e;
  }

  /** A name ending in `.` has the empty extension. */
  lemma TrailingDotGivesEmptyExtension(stem: string)
    ensures ExtensionOf(stem + ".") == ""
  {
    ExtensionIsTextAfterLastDot(stem, "");
    assert stem + "." + "" == stem + ".";
  }

  /** The object key `${name}.${extension}`. */
  function ComposeKey(name: string, ext: string): string {
    name + "." + ext
  }

  /** The response body `${origin}/${key}`. */
  function PublicUrl(origin: string, key: string): string {
    origin + "/" + key
  }

  /** `s.endsWith(suffix)`. */
  predicate EndsWith(s: string, suffix: string) {
    |suffix| <= |s| && s[|s| - |suffix|..] == suffix
  }
}
