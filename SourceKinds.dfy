/** What a theme source is (a theme directory or one background image) and
    where it is embedded in the rescue image. */
module SourceKinds {
  import opened Text

  /** The four kinds of source, decided once from the source path. */
  datatype SourceType = Directory | FilePng | FileTga | FileJpeg

  /** Paths, relative to GRUB's `$prefix`, under which the source is embedded. */
  const PathImageOnlyPng: string := "themes/DEMO.png"
  const PathImageOnlyTga: string := "themes/DEMO.tga"
  const PathImageOnlyJpeg: string := "themes/DEMO.jpeg"
  const PathFullTheme: string := "themes/DEMO"

  /** Classify a source path by its lower-cased suffix; anything that is not
      a known image suffix is taken to be a theme directory. */
  function ClassifySource(path: string): SourceType
  {
    var lower := Lower(path);
    if EndsWith(lower, ".tga") then FileTga
    else if EndsWith(lower, ".png") then FilePng
    else if EndsWith(lower, ".jpeg") then FileJpeg
    else if EndsWith(lower, ".jpg") then FileJpeg
    else Directory
  }

  /** The suffixes are mutually exclusive, so the order in which they are
      tested does not matter: each kind is exactly the set of paths with
      its suffixes. */
  lemma {:induction false} ClassifySourceCases(path: string)
    ensures ClassifySource(path) == FileTga <==> EndsWith(Lower(path), ".tga")
    ensures ClassifySource(path) == FilePng <==> EndsWith(Lower(path), ".png")
    ensures ClassifySource(path) == FileJpeg <==>
              EndsWith(Lower(path), ".jpeg") || EndsWith(Lower(path), ".jpg")
    ensures ClassifySource(path) == Directory <==>
              !EndsWith(Lower(path), ".tga") && !EndsWith(Lower(path), ".png")
              && !EndsWith(Lower(path), ".jpeg") && !EndsWith(Lower(path), ".jpg")
  {
    var lower := Lower(path);
    var n := |lower|;
    if EndsWith(lower, ".tga") {
      assert lower[n - 4..] == ".tga";
      assert lower[n - 1] == 'a';
    }
    if EndsWith(lower, ".png") {
      assert lower[n - 4..] == ".png";
      assert lower[n - 1] == 'g';
    }
    if EndsWith(lower, ".jpeg") {
      assert lower[n - 5..] == ".jpeg";
      assert lower[n - 1] == 'g' && lower[n - 2] == 'e';
    }
    if EndsWith(lower, ".jpg") {
      assert lower[n - 4..] == ".jpg";
      assert lower[n - 1] == 'g' && lower[n - 2] == 'p' && lower[n - 4] == '.';
    }
  }

  /** Only the lower-cased path matters. */
  lemma {:induction false} ClassifySourceIgnoresCase(path: string, other: string)
    requires Lower(path) == Lower(other)
    ensures ClassifySource(path) == ClassifySource(other)
    ensures ClassifySource(path) == ClassifySource(Lower(path))
  {
    LowerIdempotent(path);
  }

  /** Embedding path of a single-image source; every kind other than TGA
      and JPEG, the directory kind included, gets the PNG path. */
  function GetImagePathFor(sourceType: SourceType): (path: string)
    ensures sourceType == FileTga ==> path == PathImageOnlyTga
    ensures sourceType == FileJpeg ==> path == PathImageOnlyJpeg
    ensures sourceType == FilePng || sourceType == Directory ==> path == PathImageOnlyPng
  {
    if sourceType == FileTga then PathImageOnlyTga
    else if sourceType == FileJpeg then PathImageOnlyJpeg
    else PathImageOnlyPng
  }

  /** The embedding path of an image is classified as the image it holds. */
  lemma {:induction false} ClassifyImagePath(sourceType: SourceType)
    requires sourceType != Directory
    ensures ClassifySource(GetImagePathFor(sourceType)) == sourceType
  {
    match sourceType
    case FileTga =>
      assert GetImagePathFor(sourceType) == PathFullTheme + ".tga";
      ClassifyTga(PathFullTheme);
    case FilePng =>
      assert GetImagePathFor(sourceType) == PathFullTheme + ".png";
      ClassifyPng(PathFullTheme);
    case FileJpeg =>
      assert GetImagePathFor(sourceType) == PathFullTheme + ".jpeg";
      ClassifyJpeg(PathFullTheme);
  }

  lemma {:induction false} ClassifyTga(stem: string)
    ensures ClassifySource(stem + ".tga") == FileTga
  {
    LowerKeepsSuffix(stem, ".tga");
  }

  lemma {:induction false} ClassifyPng(stem: string)
    ensures ClassifySource(stem + ".png") == FilePng
  {
    LowerKeepsSuffix(stem, ".png");
    var lower := Lower(stem + ".png");
    assert lower[|lower| - 4..] == ".png";
    assert lower[|lower| - 1] == 'g';
  }

  lemma {:induction false} ClassifyJpeg(stem: string)
    ensures ClassifySource(stem + ".jpeg") == FileJpeg
  {
    LowerKeepsSuffix(stem, ".jpeg");
    var lower := Lower(stem + ".jpeg");
    assert lower[|lower| - 5..] == ".jpeg";
    assert lower[|lower| - 1] == 'g' && lower[|lower| - 2] == 'e';
  }

  lemma {:induction false} LowerKeepsSuffix(stem: string, suffix: string)
    requires forall i :: 0 <= i < |suffix| ==> !('A' <= suffix[i] <= 'Z')
    ensures EndsWith(Lower(stem + suffix), suffix)
  {
    LowerAppend(stem, suffix);
    assert Lower(suffix) == suffix;
  }
}
