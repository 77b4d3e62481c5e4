/** Key naming shared by the storage calls: the listing's inverse mapping from
    physical paths back to storage keys, and the last-segment rule used for
    display filenames. */
module Paths {
  import opened Text

  /** `getOutputPath`: every backslash becomes a forward slash, nothing else changes. */
  function OutputPath(p: string): (r: string)
    ensures |r| == |p| && '\\' !in r
    ensures forall i :: 0 <= i < |p| ==> r[i] == if p[i] == '\\' then '/' else p[i]
  {
    SubstituteCharwise(p, '\\', '/');
    Substitute(p, '\\', "/")
  }

  /** Normalising a path that is already normalised changes nothing. */
  lemma OutputPathIdempotent(p: string)
    ensures OutputPath(OutputPath(p)) == OutputPath(p)
  {
    SubstituteAbsent(OutputPath(p), '\\', "/");
  }

  /** JavaScript's `s.substring(start)` for a non-negative start: the suffix from
      `start` on, or the empty string when `start` is past the end. */
  function Suffix(s: string, start: nat): (r: string)
    ensures start <= |s| ==> s == s[..start] + r
    ensures start > |s| ==> r == []
  {
    if start <= |s| then s[start..] else []
  }

  /** The key mapping of `listObjects`: the physical paths reported by the recursive
      listing, each with the storage root and one separator cut off, then normalised. */
  function ListedKeys(folderPath: string, listed: seq<string>): (keys: seq<string>)
    ensures |keys| == |listed|
    ensures forall i :: 0 <= i < |listed| ==>
      keys[i] == OutputPath(Suffix(listed[i], |folderPath| + 1))
  {
    if listed == [] then []
    else [OutputPath(Suffix(listed[0], |folderPath| + 1))] + ListedKeys(folderPath, listed[1..])
  }

  /** Listing undoes the join. A key with forward slashes, stored under `folderPath` by a
      platform whose separator is `sep` (a slash or a backslash), is written on disk as
      `folderPath + sep + key` with every `/` of the key as `sep`; the listing gives the
      key back, in order. */
  lemma ListedKeysRecoverKeys(folderPath: string, sep: char, keys: seq<string>, listed: seq<string>)
    requires sep == '/' || sep == '\\'
    requires |listed| == |keys|
    requires forall i :: 0 <= i < |keys| ==> listed[i] == folderPath + [sep] + Substitute(keys[i], '/', [sep])
    requires forall i :: 0 <= i < |keys| ==> '\\' !in keys[i]
    ensures ListedKeys(folderPath, listed) == keys
  {
    var out := ListedKeys(folderPath, listed);
    forall i | 0 <= i < |keys|
      ensures out[i] == keys[i]
    {
      var onDisk := Substitute(keys[i], '/', [sep]);
      var whole := folderPath + [sep] + onDisk;
      assert Suffix(whole, |folderPath| + 1) == onDisk;
      if sep == '/' {
        SubstituteCharwise(keys[i], '/', '/');
        assert onDisk == keys[i];
        SubstituteAbsent(keys[i], '\\', "/");
      } else {
        SubstituteRoundTrip(keys[i], '/', '\\');
      }
    }
  }

  /** A listing from a host that separates with backslashes comes back with forward slashes. */
  lemma ListedKeysBackslashHost()
    ensures ListedKeys("C:\\d", ["C:\\d\\a\\b"]) == ["a/b"]
  {
    var p := "C:\\d\\a\\b";
    assert Suffix(p, 5) == "a\\b";
    assert OutputPath("a\\b") == "a/b";
  }

  /** The path with its trailing slashes removed. */
  function TrimTrailingSlashes(p: string): (t: string)
    ensures |t| <= |p| && t == p[..|t|]
    ensures t == [] || t[|t| - 1] != '/'
    ensures forall i :: |t| <= i < |p| ==> p[i] == '/'
    decreases |p|
  {
    if p != [] && p[|p| - 1] == '/' then TrimTrailingSlashes(p[..|p| - 1]) else p
  }

  /** The text after the last slash of `t` (all of `t` when it has none). */
  function LastSegment(t: string): (r: string)
    ensures '/' !in r
    ensures |r| <= |t| && r == t[|t| - |r|..]
    ensures |r| < |t| ==> t[|t| - |r| - 1] == '/'
    decreases |t|
  {
    if t == [] || t[|t| - 1] == '/' then [] else LastSegment(t[..|t| - 1]) + [t[|t| - 1]]
  }

  /** POSIX `path.basename(p)`: the last segment once trailing slashes are ignored. */
  function Basename(p: string): (r: string)
    ensures '/' !in r
  {
    LastSegment(TrimTrailingSlashes(p))
  }

  /** The last segment of `d + "/" + name` is `name` when `name` has no slash. */
  lemma {:induction false} LastSegmentAfterSlash(d: string, name: string)
    requires '/' !in name
    ensures LastSegment(d + "/" + name) == name
    decreases |name|
  {
    var t := d + "/" + name;
    if name != [] {
      var init := name[..|name| - 1];
      assert t[..|t| - 1] == d + "/" + init;
      LastSegmentAfterSlash(d, init);
      assert name == init + [name[|name| - 1]];
    } else {
      assert t[|t| - 1] == '/';
    }
  }

  /** Basename recovers a non-empty slash-free name from a path that ends in it. */
  lemma BasenameOfJoin(d: string, name: string)
    requires name != [] && '/' !in name
    ensures Basename(d + "/" + name) == name
  {
    var t := d + "/" + name;
    assert t[|t| - 1] == name[|name| - 1];
    assert TrimTrailingSlashes(t) == t;
    LastSegmentAfterSlash(d, name);
  }
}
