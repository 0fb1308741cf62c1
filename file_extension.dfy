/**
 * The file-extension helper of the plugin: `filename.split(".").pop()`,
 * turned into `"." + ext` when that last piece is non-empty and into ""
 * otherwise.
 */
module FileExtension {

  /** `s.split(sep)` as JavaScript computes it for a one-character separator:
      never empty, every piece free of `sep`, and a single piece exactly when
      `sep` does not occur (so `"".split(".")` is `[""]`). */
  function Split(s: string, sep: char): (parts: seq<string>)
    ensures |parts| >= 1
    ensures forall k :: 0 <= k < |parts| ==> sep !in parts[k]
    ensures |parts| == 1 <==> sep !in s
    decreases |s|
  {
    if |s| == 0 then [""]
    else
      var rest := Split(s[1..], sep);
      if s[0] == sep then [""] + rest
      else [[s[0]] + rest[0]] + rest[1..]
  }

  /** The pieces glued back together with `sep` between neighbours. */
  function Join(parts: seq<string>, sep: char): string
  {
    if |parts| == 0 then ""
    else if |parts| == 1 then parts[0]
    else parts[0] + [sep] + Join(parts[1..], sep)
  }

  /** Splitting loses nothing: joining the pieces gives back the input. */
  lemma {:induction false} JoinSplit(s: string, sep: char)
    ensures Join(Split(s, sep), sep) == s
    decreases |s|
  {
    if |s| > 0 {
      var rest := Split(s[1..], sep);
      JoinSplit(s[1..], sep);
      if s[0] == sep {
        assert Split(s, sep) == [""] + rest;
        assert ([""] + rest)[1..] == rest;
        assert s == [s[0]] + s[1..];
      } else {
        var parts := Split(s, sep);
        assert parts == [[s[0]] + rest[0]] + rest[1..];
        if |rest| == 1 {
          assert s == [s[0]] + s[1..];
        } else {
          assert parts[1..] == rest[1..];
          assert Join(rest, sep) == rest[0] + [sep] + Join(rest[1..], sep);
          assert s == [s[0]] + s[1..];
        }
      }
    }
  }

  /** What `Array.prototype.pop` returns on the (never empty) result of `Split`. */
  function LastSegment(s: string, sep: char): string
  {
    var parts := Split(s, sep);
    parts[|parts| - 1]
  }

  /** `seg` is the text after the last `sep` in `s`, or all of `s` when `s`
      has no `sep`: a suffix of `s` free of `sep` that either is the whole of
      `s` or is preceded by `sep`. */
  ghost predicate IsLastSegment(s: string, sep: char, seg: string)
  {
    && |seg| <= |s|
    && s[|s| - |seg|..] == seg
    && sep !in seg
    && (|seg| == |s| || s[|s| - |seg| - 1] == sep)
  }

  /** At most one string has that description. */
  lemma LastSegmentUnique(s: string, sep: char, a: string, b: string)
    requires IsLastSegment(s, sep, a) && IsLastSegment(s, sep, b)
    ensures a == b
  {
  }

  /** One step of `Split` seen from its last piece: dropping the first
      character keeps the last piece unless no separator is left at all. */
  lemma LastSegmentStep(s: string, sep: char)
    requires |s| > 0
    ensures LastSegment(s, sep) ==
            if s[0] != sep && sep !in s[1..] then s else LastSegment(s[1..], sep)
  {
    var rest := Split(s[1..], sep);
    if s[0] != sep && sep !in s[1..] {
      JoinSplit(s[1..], sep);
      assert s == [s[0]] + s[1..];
    }
  }

  /** Suffixes of `s[1..]` are suffixes of `s`, with the same neighbour. */
  lemma SuffixOfTail(s: string, k: nat)
    requires k < |s|
    ensures s[|s| - k..] == s[1..][|s| - 1 - k..]
    ensures k < |s| - 1 ==> s[|s| - k - 1] == s[1..][|s| - 1 - k - 1]
  {
  }

  /** The last piece of the split is the text after the last separator. */
  lemma {:induction false} LastSegmentIsTextAfterLastSep(s: string, sep: char)
    ensures IsLastSegment(s, sep, LastSegment(s, sep))
    decreases |s|
  {
    if |s| > 0 {
      LastSegmentStep(s, sep);
      var r := LastSegment(s, sep);
      if !(s[0] != sep && sep !in s[1..]) {
        LastSegmentIsTextAfterLastSep(s[1..], sep);
        SuffixOfTail(s, |r|);
      }
    }
  }

  /** The last piece is exactly the text after the last separator. */
  lemma LastSegmentCharacterized(s: string, sep: char, seg: string)
    ensures LastSegment(s, sep) == seg <==> IsLastSegment(s, sep, seg)
  {
    LastSegmentIsTextAfterLastSep(s, sep);
    if IsLastSegment(s, sep, seg) {
      LastSegmentUnique(s, sep, seg, LastSegment(s, sep));
    }
  }

  /** `getFileExtension`: a leading dot plus the last dot-separated piece,
      or "" when that piece is empty (JavaScript treats "" as false). */
  function GetFileExtension(filename: string): string
  {
    var ext := LastSegment(filename, '.');
    if ext != "" then "." + ext else ""
  }

  /** The extension is "." followed by the text after the last dot, or ""
      when that text is empty. */
  lemma ExtensionFromLastDot(filename: string, seg: string)
    requires IsLastSegment(filename, '.', seg)
    ensures GetFileExtension(filename) == if seg == "" then "" else "." + seg
  {
    LastSegmentCharacterized(filename, '.', seg);
  }

  /** The extension is empty exactly for an empty name or a name ending in a dot. */
  lemma ExtensionEmptyIff(filename: string)
    ensures GetFileExtension(filename) == "" <==>
            (|filename| == 0 || filename[|filename| - 1] == '.')
  {
    LastSegmentIsTextAfterLastSep(filename, '.');
  }

  /** A non-empty extension is one leading dot and a dot-free suffix of the
      name; with the dot it is a suffix of the name exactly when the name
      contains a dot (a dot-free name such as `blob` gives `.blob`). */
  lemma ExtensionShape(filename: string)
    ensures var ext := GetFileExtension(filename);
            ext == "" ||
            (&& ext[0] == '.'
             && '.' !in ext[1..]
             && |ext| - 1 <= |filename|
             && filename[|filename| - (|ext| - 1)..] == ext[1..]
             && (ext == "." + filename <==> '.' !in filename)
             && (|ext| <= |filename| && filename[|filename| - |ext|..] == ext <==> '.' in filename))
  {
    var seg := LastSegment(filename, '.');
    LastSegmentIsTextAfterLastSep(filename, '.');
    var ext := GetFileExtension(filename);
    if ext != "" {
      assert ext[1..] == seg;
      var n := |filename|;
      if '.' in filename {
        if |seg| == n {
          assert false;
        }
        assert filename[n - |ext|..] == [filename[n - |seg| - 1]] + filename[n - |seg|..];
      } else {
        if |seg| < n {
          assert false;
        }
        assert seg == filename;
      }
    }
  }

  /** A name ending in a dot and a dot-free, non-empty tail has that tail as
      its extension, whatever comes before the dot. */
  lemma ExtensionAfterDot(stem: string, tail: string)
    requires tail != "" && '.' !in tail
    ensures GetFileExtension(stem + "." + tail) == "." + tail
  {
    var f := stem + "." + tail;
    assert f[|f| - |tail|..] == tail;
    assert f[|f| - |tail| - 1] == '.';
    ExtensionFromLastDot(f, tail);
  }

  /** A dot-free, non-empty name is its own extension, after a dot. */
  lemma ExtensionOfDotFreeName(filename: string)
    requires filename != "" && '.' !in filename
    ensures GetFileExtension(filename) == "." + filename
  {
    ExtensionFromLastDot(filename, filename);
  }

  /** Two worked examples. The name is a parameter fixed by `requires`
      rather than a literal argument of `GetFileExtension`: with the literal
      the solver unfolds `Split` character by character, which is slow and
      unstable, while the equation lets `ExtensionAfterDot` do the work. */
  lemma ExtensionOfPhoto(filename: string)
    requires filename == "photo.PNG"
    ensures GetFileExtension(filename) == ".PNG"
  {
    ExtensionAfterDot("photo", "PNG");
    assert "photo" + "." + "PNG" == filename;
  }

  lemma ExtensionOfTarball(filename: string)
    requires filename == "a.tar.gz"
    ensures GetFileExtension(filename) == ".gz"
  {
    ExtensionAfterDot("a.tar", "gz");
    assert "a.tar" + "." + "gz" == filename;
  }

  /** A name without a dot does not give "": the whole name becomes the extension. */
  lemma ExtensionWithoutDot()
    ensures GetFileExtension("blob") == ".blob"
  {
    ExtensionOfDotFreeName("blob");
  }

  lemma ExtensionOfEmptyAndTrailingDot()
    ensures GetFileExtension("") == ""
    ensures GetFileExtension("a.") == ""
  {
    ExtensionEmptyIff("");
    ExtensionEmptyIff("a.");
  }
}
