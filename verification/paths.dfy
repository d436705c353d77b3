/** Windows path handling from .NET `System.IO.Path` that decides the output file
    name: `GetFileName`, `GetFileNameWithoutExtension` and `Combine`. Both export
    strategies name their output with `OutputPath`. */
module Paths {
  import Text

  const DirectorySeparator: char := '\\'
  const DrawingExtension := ".dwg"

  /** Windows accepts both `\` and `/` as directory separators. */
  predicate IsSeparator(c: char) {
    c == '\\' || c == '/'
  }

  predicate NoSeparator(s: string) {
    forall k :: 0 <= k < |s| ==> !IsSeparator(s[k])
  }

  /** A drive-relative root such as `C:`. */
  predicate HasDrivePrefix(p: string) {
    |p| >= 2 && (('A' <= p[0] <= 'Z') || ('a' <= p[0] <= 'z')) && p[1] == ':'
  }

  /** `Path.IsPathRooted` on Windows. */
  predicate IsRooted(p: string) {
    (|p| >= 1 && IsSeparator(p[0])) || HasDrivePrefix(p)
  }

  /** Index of the last `\` or `/` in `p`, or -1 when there is none. */
  function LastSeparator(p: string): (i: int)
    ensures -1 <= i < |p|
    ensures i >= 0 ==> IsSeparator(p[i])
    ensures NoSeparator(p[i + 1..])
  {
    if p == [] then -1
    else if IsSeparator(p[|p| - 1]) then |p| - 1
    else
      var i := LastSeparator(p[..|p| - 1]);
      assert p[i + 1..] == p[..|p| - 1][i + 1..] + [p[|p| - 1]];
      i
  }

  /** Index of the last `.` in `s`, or -1 when there is none. */
  function LastDot(s: string): (i: int)
    ensures -1 <= i < |s|
    ensures i >= 0 ==> s[i] == '.'
    ensures forall k :: i < k < |s| ==> s[k] != '.'
  {
    if s == [] then -1
    else if s[|s| - 1] == '.' then |s| - 1
    else LastDot(s[..|s| - 1])
  }

  /** `Path.GetFileName`: what follows the last separator, or the leading drive when
      there is no separator. */
  function FileName(p: string): (name: string)
    ensures NoSeparator(name)
    ensures |name| <= |p| && name == p[|p| - |name|..]
    // the name starts right after a separator, after a leading drive, or at the start
    ensures |name| < |p| ==> IsSeparator(p[|p| - |name| - 1]) || (HasDrivePrefix(p) && |name| == |p| - 2)
    // a leading drive is never part of the name
    ensures HasDrivePrefix(p) ==> |name| <= |p| - 2
  {
    var i := LastSeparator(p);
    var tail := p[i + 1..];
    if i < 0 && HasDrivePrefix(p) then
      assert tail[2..] == p[2..];
      tail[2..]
    else tail
  }

  /** `Path.GetFileNameWithoutExtension`: the file name cut at its last dot. */
  function FileNameWithoutExtension(p: string): (stem: string)
    ensures NoSeparator(stem)
    ensures stem <= FileName(p)
    // the whole file name when it has no dot, otherwise the part before its last dot
    ensures || (stem == FileName(p) && forall k :: 0 <= k < |stem| ==> stem[k] != '.')
            || (|stem| < |FileName(p)| && FileName(p)[|stem|] == '.'
                && forall k :: |stem| < k < |FileName(p)| ==> FileName(p)[k] != '.')
  {
    var name := FileName(p);
    var dot := LastDot(name);
    if dot < 0 then name else name[..dot]
  }

  /** `Path.Combine` of two paths: the result always ends with the second path (and
      lies under the first unless the second is rooted, see `CombineUnderFirst`). */
  function Combine(first: string, second: string): (r: string)
    ensures Text.EndsWith(r, second)
    ensures IsRooted(second) ==> r == second
    // at most one separator is inserted
    ensures |r| <= |first| + 1 + |second|
    // a separator is inserted exactly when the first path does not already end in one
    ensures first != [] && second != [] && !IsRooted(second) ==>
              && (r == first + second || r == first + [DirectorySeparator] + second)
              && IsSeparator(r[|r| - |second| - 1])
              && (|r| == |first| + 1 + |second| ==> !IsSeparator(first[|first| - 1]))
  {
    if first == [] then second
    else if second == [] then first
    else if IsRooted(second) then second
    else if IsSeparator(first[|first| - 1]) || IsSeparator(second[0]) then
      assert (first + second)[|first|..] == second;
      first + second
    else
      assert (first + [DirectorySeparator] + second)[|first| + 1..] == second;
      first + [DirectorySeparator] + second
  }

  /** The drawing a part is exported to: `{outputFolder}\{part base name}.dwg`. */
  function OutputPath(outputFolder: string, partPath: string): (path: string)
    ensures Text.EndsWith(path, FileNameWithoutExtension(partPath) + DrawingExtension)
    ensures Text.EndsWith(path, DrawingExtension)
  {
    var name := FileNameWithoutExtension(partPath) + DrawingExtension;
    assert name[|name| - |DrawingExtension|..] == DrawingExtension;
    Text.EndsWithTransitive(Combine(outputFolder, name), name, DrawingExtension);
    Combine(outputFolder, name)
  }

  /** A second path that is not rooted is joined under the first. */
  lemma CombineUnderFirst(first: string, second: string)
    requires !IsRooted(second)
    ensures first <= Combine(first, second)
  {
    if first != [] && second != [] {
      assert first <= first + second;
      assert first <= first + [DirectorySeparator] + second;
    }
  }

  /** A string without separators has no last separator. */
  lemma LastSeparatorOfPlain(s: string)
    requires NoSeparator(s)
    ensures LastSeparator(s) == -1
  {
  }

  /** The last separator is at `j` when `s[j]` is one and none follows it. */
  lemma LastSeparatorAt(s: string, j: int)
    requires 0 <= j < |s| && IsSeparator(s[j]) && NoSeparator(s[j + 1..])
    ensures LastSeparator(s) == j
  {
    var i := LastSeparator(s);
    forall k | j < k < |s|
      ensures !IsSeparator(s[k])
    {
      assert s[k] == s[j + 1..][k - j - 1];
    }
    forall k | i < k < |s|
      ensures !IsSeparator(s[k])
    {
      assert s[k] == s[i + 1..][k - i - 1];
    }
  }

  /** The last dot is at `j` when `s[j]` is one and none follows it. */
  lemma LastDotAt(s: string, j: int)
    requires 0 <= j < |s| && s[j] == '.'
    requires forall k :: j < k < |s| ==> s[k] != '.'
    ensures LastDot(s) == j
  {
  }

  /** A name without separators or a drive prefix is its own file name. */
  lemma FileNameOfPlainName(name: string)
    requires NoSeparator(name) && !HasDrivePrefix(name)
    ensures FileName(name) == name
  {
    LastSeparatorOfPlain(name);
    assert name[0..] == name;
  }

  /** The base name of a path depends only on its file name. */
  lemma StemOfFileName(p: string, q: string)
    requires FileName(p) == FileName(q)
    ensures FileNameWithoutExtension(p) == FileNameWithoutExtension(q)
  {
    var name := FileName(p);
    var dot := LastDot(name);
    assert FileNameWithoutExtension(p) == if dot < 0 then name else name[..dot];
    assert FileNameWithoutExtension(q) == if dot < 0 then name else name[..dot];
  }

  /** A separator at `j` followed by a separator-free name makes that name the file name. */
  lemma FileNameAfterSeparator(p: string, j: int, name: string)
    requires 0 <= j < |p| && IsSeparator(p[j]) && p[j + 1..] == name && NoSeparator(name)
    ensures FileName(p) == name
  {
    LastSeparatorAt(p, j);
  }

  /** Joining a separator-free, non-rooted name onto a folder leaves the name as
      the file name of the result, under the folder. */
  lemma CombineKeepsFileName(folder: string, name: string)
    requires name != [] && NoSeparator(name) && !HasDrivePrefix(name)
    ensures FileName(Combine(folder, name)) == name
    ensures folder <= Combine(folder, name)
  {
    assert !IsRooted(name) && !IsSeparator(name[0]);
    CombineUnderFirst(folder, name);
    if folder == [] {
      FileNameOfPlainName(name);
    } else if IsSeparator(folder[|folder| - 1]) {
      var p := folder + name;
      assert p == Combine(folder, name);
      assert p[|folder|..] == name && p[|folder| - 1] == folder[|folder| - 1];
      FileNameAfterSeparator(p, |folder| - 1, name);
    } else {
      var p := folder + [DirectorySeparator] + name;
      assert p == Combine(folder, name);
      assert p[|folder| + 1..] == name && p[|folder|] == DirectorySeparator;
      FileNameAfterSeparator(p, |folder|, name);
    }
  }

  /** A drawing name built from a separator-free, drive-free stem is itself separator-free
      and drive-free. */
  lemma DrawingNameIsPlain(stem: string)
    requires NoSeparator(stem) && !HasDrivePrefix(stem)
    ensures NoSeparator(stem + DrawingExtension) && !HasDrivePrefix(stem + DrawingExtension)
  {
    var name := stem + DrawingExtension;
    forall k | 0 <= k < |name|
      ensures !IsSeparator(name[k])
    {
      if k < |stem| {
        assert name[k] == stem[k];
      } else {
        assert name[k] == DrawingExtension[k - |stem|];
      }
    }
    if |stem| >= 2 {
      assert name[0] == stem[0] && name[1] == stem[1];
    } else if |stem| == 1 {
      assert name[1] == '.';
    } else {
      assert name[0] == '.';
    }
  }

  /** `stem.dwg` has its dot right after the stem and no dot in `dwg`. */
  lemma DrawingExtensionChars(stem: string)
    ensures var name := stem + DrawingExtension;
            |stem| < |name| && name[|stem|] == '.' && forall k :: |stem| < k < |name| ==> name[k] != '.'
  {
    var name := stem + DrawingExtension;
    var n := |stem|;
    assert |name| == n + 4;
    assert name[n] == '.' && name[n + 1] == 'd' && name[n + 2] == 'w' && name[n + 3] == 'g';
  }

  /** The last dot of `stem.dwg` is the one before `dwg`. */
  lemma LastDotOfDrawingName(stem: string)
    ensures LastDot(stem + DrawingExtension) == |stem|
  {
    DrawingExtensionChars(stem);
    LastDotAt(stem + DrawingExtension, |stem|);
  }

  lemma StemOfDrawingName(stem: string)
    requires NoSeparator(stem) && !HasDrivePrefix(stem)
    ensures FileNameWithoutExtension(stem + DrawingExtension) == stem
  {
    var name := stem + DrawingExtension;
    DrawingNameIsPlain(stem);
    FileNameOfPlainName(name);
    LastDotOfDrawingName(stem);
    assert name[..|stem|] == stem;
  }

  /** The output is a `.dwg` drawing whose base name is the part's base name, placed in
      the output folder (unless that base name itself starts with a drive, which makes
      `Path.Combine` discard the folder). */
  lemma OutputPathNaming(outputFolder: string, partPath: string)
    requires !HasDrivePrefix(FileNameWithoutExtension(partPath))
    ensures FileNameWithoutExtension(OutputPath(outputFolder, partPath)) == FileNameWithoutExtension(partPath)
    ensures FileName(OutputPath(outputFolder, partPath)) == FileNameWithoutExtension(partPath) + DrawingExtension
    ensures outputFolder <= OutputPath(outputFolder, partPath)
  {
    var stem := FileNameWithoutExtension(partPath);
    var name := stem + DrawingExtension;
    var output := OutputPath(outputFolder, partPath);
    assert output == Combine(outputFolder, name);
    DrawingNameIsPlain(stem);
    CombineKeepsFileName(outputFolder, name);
    FileNameOfPlainName(name);
    StemOfFileName(output, name);
    StemOfDrawingName(stem);
  }

  /** The file name of `dir\name` is `name`, whatever the directory. */
  lemma FileNameAfterDirectory(dir: string, name: string)
    requires NoSeparator(name)
    ensures FileName(dir + [DirectorySeparator] + name) == name
  {
    var p := dir + [DirectorySeparator] + name;
    assert p[|dir| + 1..] == name;
    assert IsSeparator(p[|dir|]);
    assert LastSeparator(p) == |dir|;
  }

  /** Output names depend only on the part's file name: parts with the same file
      name in different folders are exported to the same drawing. */
  lemma SameFileNameSameOutput(outputFolder: string, dir1: string, dir2: string, name: string)
    requires NoSeparator(name)
    ensures OutputPath(outputFolder, dir1 + [DirectorySeparator] + name) == OutputPath(outputFolder, dir2 + [DirectorySeparator] + name)
  {
    FileNameAfterDirectory(dir1, name);
    FileNameAfterDirectory(dir2, name);
  }
}
