/** The parts of Go's `strings` and `path/filepath` packages the gateway relies on. */
module GoStrings {

  /** Go's `strings.Split(s, string(sep))` for a one-character separator. */
  function Split(s: string, sep: char): (parts: seq<string>)
    ensures |parts| >= 1
    ensures forall i :: 0 <= i < |parts| ==> sep !in parts[i]
    decreases |s|
  {
    if |s| == 0 then [""]
    else
      var rest := Split(s[1..], sep);
      if s[0] == sep then [""] + rest else [[s[0]] + rest[0]] + rest[1..]
  }

  /** Go's `strings.Join(parts, string(sep))`. */
  function Join(parts: seq<string>, sep: char): string
    requires |parts| >= 1
  {
    if |parts| == 1 then parts[0] else parts[0] + [sep] + Join(parts[1..], sep)
  }

  /** Joining the pieces of a split gives back the original string. */
  lemma {:induction false} JoinSplit(s: string, sep: char)
    ensures Join(Split(s, sep), sep) == s
    decreases |s|
  {
    if |s| > 0 {
      var rest := Split(s[1..], sep);
      JoinSplit(s[1..], sep);
      if s[0] == sep {
        assert Split(s, sep)[1..] == rest;
      } else {
        var parts := Split(s, sep);
        if |rest| == 1 {
          assert parts == [[s[0]] + rest[0]];
        } else {
          assert parts[1..] == rest[1..];
          assert Join(rest, sep) == rest[0] + [sep] + Join(rest[1..], sep);
        }
      }
      assert [s[0]] + s[1..] == s;
    }
  }

  /** Splitting a join of separator-free pieces gives back the pieces. */
  lemma {:induction false} SplitJoin(parts: seq<string>, sep: char)
    requires |parts| >= 1
    requires forall i :: 0 <= i < |parts| ==> sep !in parts[i]
    ensures Split(Join(parts, sep), sep) == parts
    decreases |parts|, |parts[0]|
  {
    var p := parts[0];
    if |p| > 0 {
      var j := Join(parts, sep);
      var tail := [p[1..]] + parts[1..];
      assert tail[0] == p[1..] && tail[1..] == parts[1..];
      SplitJoin(tail, sep);
      assert j[1..] == Join(tail, sep);
      assert p[0] != sep by { assert p[0] in parts[0]; }
      assert [p[0]] + p[1..] == p;
    } else if |parts| > 1 {
      SplitJoin(parts[1..], sep);
      assert Join(parts, sep)[1..] == Join(parts[1..], sep);
      assert [""] + parts[1..] == parts;
    }
  }

  /** Go's `strings.HasPrefix`. */
  predicate HasPrefix(s: string, prefix: string) {
    |prefix| <= |s| && s[..|prefix|] == prefix
  }

  /** Go's `strings.TrimPrefix`: drops one leading copy of the prefix, if any. */
  function TrimPrefix(s: string, prefix: string): (r: string)
    ensures HasPrefix(s, prefix) ==> prefix + r == s
    ensures !HasPrefix(s, prefix) ==> r == s
  {
    if HasPrefix(s, prefix) then s[|prefix|..] else s
  }

  /**
   * Go's `filepath.Ext`: the suffix of the last path element starting at its
   * last dot, or "" when that element has no dot.
   */
  function Ext(path: string): (e: string)
    ensures e == "" || (e[0] == '.' && '.' !in e[1..] && '/' !in e)
    ensures |e| <= |path| && e == path[|path| - |e|..]
    decreases |path|
  {
    if |path| == 0 || path[|path| - 1] == '/' then ""
    else if path[|path| - 1] == '.' then "."
    else
      var e := Ext(path[..|path| - 1]);
      if e == "" then "" else e + [path[|path| - 1]]
  }

  /** The final element of a slash-separated path. */
  function Base(path: string): (b: string)
    ensures '/' !in b && |b| <= |path| && b == path[|path| - |b|..]
    decreases |path|
  {
    if |path| == 0 || path[|path| - 1] == '/' then ""
    else Base(path[..|path| - 1]) + [path[|path| - 1]]
  }

  /** The extension is empty exactly when the final path element holds no dot. */
  lemma {:induction false} ExtEmpty(path: string)
    ensures Ext(path) == "" <==> '.' !in Base(path)
    decreases |path|
  {
    if |path| > 0 && path[|path| - 1] != '/' && path[|path| - 1] != '.' {
      var init := path[..|path| - 1];
      ExtEmpty(init);
      assert Base(path) == Base(init) + [path[|path| - 1]];
    }
  }

  /** A path ending in a dotted suffix with no further dot or slash has that suffix as its extension. */
  lemma {:induction false} ExtOfSuffix(stem: string, e: string)
    requires |e| >= 1 && e[0] == '.' && '.' !in e[1..] && '/' !in e
    ensures Ext(stem + e) == e
    decreases |e|
  {
    var path := stem + e;
    if |e| > 1 {
      var init := e[..|e| - 1];
      assert path[..|path| - 1] == stem + init;
      assert e[|e| - 1] in e[1..];
      assert init[1..] == e[1..|e| - 1];
      ExtOfSuffix(stem, init);
      assert init + [e[|e| - 1]] == e;
    }
  }
}
