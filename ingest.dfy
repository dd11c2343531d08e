/**
 * The choice of decoding route for a selected photo: a file whose name
 * ends in the lower-case extension `.heic` is first converted by
 * `heic2any`, to that library's default format, and then decoded; every
 * other file is decoded directly. The test is an exact,
 * case-sensitive suffix comparison on the file name.
 */
module Ingest {

  const HeicSuffix: string := ".heic"

  predicate EndsWith(s: string, suffix: string) {
    |suffix| <= |s| && s[|s| - |suffix|..] == suffix
  }

  /** Whether the photo is first converted by `heic2any` before decoding. */
  predicate TakesTranscodePath(fileName: string) {
    EndsWith(fileName, HeicSuffix)
  }

  /** Every name made of some stem followed by `.heic` is transcoded. */
  lemma TranscodesEveryHeicName(stem: string)
    ensures TakesTranscodePath(stem + HeicSuffix)
  {
    assert (stem + HeicSuffix)[|stem|..] == HeicSuffix;
  }

  /** A transcoded name is its stem followed by `.heic`, and nothing else. */
  lemma TranscodesOnlyHeicNames(fileName: string)
    requires TakesTranscodePath(fileName)
    ensures |fileName| >= |HeicSuffix|
    ensures fileName == fileName[..|fileName| - |HeicSuffix|] + HeicSuffix
  {
  }

  /** The comparison is case-sensitive and needs the dot. */
  lemma SuffixExamples()
    ensures TakesTranscodePath("IMG_0001.heic")
    ensures !TakesTranscodePath("IMG_0001.HEIC")
    ensures !TakesTranscodePath("IMG_0001.Heic")
    ensures !TakesTranscodePath("photo_heic")
    ensures !TakesTranscodePath("photo.heic.jpg")
  {
    TranscodesEveryHeicName("IMG_0001");
    assert "IMG_0001.HEIC"[9] == 'H';
    assert "IMG_0001.Heic"[10] == 'e' && "IMG_0001.Heic"[9] == 'H';
    assert "photo_heic"[5] == '_';
    assert "photo.heic.jpg"[10] == '.' && "photo.heic.jpg"[9..] != HeicSuffix;
  }
}
