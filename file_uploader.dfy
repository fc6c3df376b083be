/** The attachment picker's file list and icon choice
    (frontend/src/components/ui/FileUploader.jsx). Files are opaque values. */
module FileUploader {
  import opened Text

  function Min(a: int, b: int): int {
    if a <= b then a else b
  }

  function Max(a: int, b: int): int {
    if a <= b then b else a
  }

  /** `[...files, ...accepted].slice(0, maxFiles)`. A negative end counts
      back from the end of the list, as `slice` does. */
  function OnDrop<T>(files: seq<T>, accepted: seq<T>, maxFiles: int): (r: seq<T>)
    ensures |r| <= |files| + |accepted| && r == (files + accepted)[..|r|]
    ensures maxFiles >= 0 ==> |r| == Min(|files| + |accepted|, maxFiles)
    ensures maxFiles < 0 ==> |r| == Max(|files| + |accepted| + maxFiles, 0)
    ensures |files| <= maxFiles ==> |files| <= |r| && r[..|files|] == files
  {
    var all := files + accepted;
    var end := if maxFiles >= 0 then Min(maxFiles, |all|) else Max(|all| + maxFiles, 0);
    assert |files| <= end ==> all[..end][..|files|] == files;
    all[..end]
  }

  /** A drop onto a list already holding `maxFiles` files or more keeps only
      its first `maxFiles` files, and a drop that fits keeps every file. */
  lemma OnDropBounds<T>(files: seq<T>, accepted: seq<T>, maxFiles: int)
    ensures |files| >= maxFiles >= 0 ==> OnDrop(files, accepted, maxFiles) == files[..maxFiles]
    ensures 0 <= |files| + |accepted| <= maxFiles ==> OnDrop(files, accepted, maxFiles) == files + accepted
  {
    var r := OnDrop(files, accepted, maxFiles);
    if |files| >= maxFiles >= 0 {
      assert (files + accepted)[..maxFiles] == files[..maxFiles];
    }
  }

  /** `files.filter((_, i) => i !== index)`, as the left-to-right scan. */
  function RemoveFile<T>(files: seq<T>, index: int): (r: seq<T>)
    ensures 0 <= index < |files| ==> r == files[..index] + files[index + 1..]
    ensures !(0 <= index < |files|) ==> r == files
  {
    if files == [] then []
    else
      var n := |files|;
      var init := RemoveFile(files[..n - 1], index);
      if n - 1 == index then
        assert files[..index] == files[..n - 1];
        init
      else
        assert 0 <= index < n - 1 ==>
          files[..n - 1][..index] == files[..index]
          && files[..n - 1][index + 1..] + [files[n - 1]] == files[index + 1..];
        assert files[..n - 1] + [files[n - 1]] == files;
        init + [files[n - 1]]
  }

  /** Removing a valid position shortens the list by one and keeps every
      other file, in order. */
  lemma RemoveFileKeepsOthers<T>(files: seq<T>, index: int)
    requires 0 <= index < |files|
    ensures |RemoveFile(files, index)| == |files| - 1
    ensures forall i :: 0 <= i < index ==> RemoveFile(files, index)[i] == files[i]
    ensures forall i :: index <= i < |files| - 1 ==> RemoveFile(files, index)[i] == files[i + 1]
  {
  }

  /** `filename.split('.').pop().toLowerCase()`. */
  function Extension(name: string): (r: string)
    ensures '.' !in r
    ensures |r| <= |name| && r == Lower(name[|name| - |r|..])
    ensures |r| < |name| ==> name[|name| - |r| - 1] == '.'
    ensures '.' !in name ==> r == Lower(name)
  {
    var ext := AfterLast(name, '.');
    var r := Lower(ext);
    assert forall i :: 0 <= i < |r| ==> r[i] != '.' by {
      forall i | 0 <= i < |r| ensures r[i] != '.' {
        assert ext[i] != '.';
      }
    }
    r
  }

  datatype Icon = ImageIcon | DocumentIcon

  const ImageExtensions: seq<string> := ["jpg", "jpeg", "png", "gif", "webp"]

  /** `getFileIcon`: the picture icon exactly for the five image extensions. */
  function FileIcon(name: string): (r: Icon)
    ensures r == ImageIcon <==> Extension(name) in ImageExtensions
  {
    if Extension(name) in ImageExtensions then ImageIcon else DocumentIcon
  }

  lemma {:induction false} LowerTwice(s: string)
    ensures Lower(Lower(s)) == Lower(s)
  {
    if s != [] { LowerTwice(s[1..]); }
  }

  lemma LowerAppend(a: string, b: string)
    ensures Lower(a + b) == Lower(a) + Lower(b)
  {
  }

  lemma AfterLastStep(s: string, sep: char)
    requires s != []
    ensures AfterLast(s, sep) == if s[|s| - 1] == sep then [] else AfterLast(s[..|s| - 1], sep) + [s[|s| - 1]]
  {
  }

  lemma {:induction false} AfterLastOfLower(s: string)
    ensures AfterLast(Lower(s), '.') == Lower(AfterLast(s, '.'))
    decreases |s|
  {
    if s != [] {
      var n := |s|;
      var low := Lower(s);
      var c := s[n - 1];
      assert low[..n - 1] == Lower(s[..n - 1]);
      assert low[n - 1] == LowerChar(c);
      assert LowerChar(c) == '.' <==> c == '.';
      AfterLastStep(s, '.');
      AfterLastStep(low, '.');
      AfterLastOfLower(s[..n - 1]);
      if c != '.' {
        LowerAppend(AfterLast(s[..n - 1], '.'), [c]);
        assert Lower([c]) == [LowerChar(c)];
      }
    }
  }

  /** The icon does not depend on the case of the file name. */
  lemma FileIconIgnoresCase(name: string)
    ensures FileIcon(Lower(name)) == FileIcon(name)
  {
    AfterLastOfLower(name);
    LowerTwice(AfterLast(name, '.'));
  }
}
