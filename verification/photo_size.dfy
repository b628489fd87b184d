/**
 * The rendition choice made before a photo is downloaded: the first large
 * rendition ("w" or "y") wins, a medium one ("x") is the fallback, and
 * failing both the last descriptor's type is used if it is a real size.
 */
module PhotoSizes {
  import opened TgTypes

  /** Only PhotoSize and PhotoSizeProgressive entries take part in the scan. */
  predicate Considered(s: PhotoSizeClass) {
    s.PhotoSize? || s.PhotoSizeProgressive?
  }

  predicate IsLarge(s: PhotoSizeClass) {
    Considered(s) && (s.sizeType == "w" || s.sizeType == "y")
  }

  predicate IsMedium(s: PhotoSizeClass) {
    Considered(s) && s.sizeType == "x"
  }

  /** The type of the first large rendition, if there is one. */
  function FirstLarge(sizes: seq<PhotoSizeClass>): Option<string> {
    if sizes == [] then None
    else if IsLarge(sizes[0]) then Some(sizes[0].sizeType)
    else FirstLarge(sizes[1..])
  }

  /** The thumb size the client requests, or None when no size is suitable. */
  function BestSize(sizes: seq<PhotoSizeClass>): Option<string> {
    if FirstLarge(sizes).Some? then FirstLarge(sizes)
    else if exists j :: 0 <= j < |sizes| && IsMedium(sizes[j]) then Some("x")
    else if |sizes| > 0 && Considered(sizes[|sizes| - 1]) && sizes[|sizes| - 1].sizeType != ""
    then Some(sizes[|sizes| - 1].sizeType)
    else None
  }

  lemma {:induction false} FirstLargeAt(sizes: seq<PhotoSizeClass>, i: int)
    requires 0 <= i < |sizes| && IsLarge(sizes[i])
    requires forall j :: 0 <= j < i ==> !IsLarge(sizes[j])
    ensures FirstLarge(sizes) == Some(sizes[i].sizeType)
  {
    if i > 0 {
      FirstLargeAt(sizes[1..], i - 1);
    }
  }

  lemma {:induction false} FirstLargeAbsent(sizes: seq<PhotoSizeClass>)
    ensures FirstLarge(sizes).None? <==> forall j :: 0 <= j < |sizes| ==> !IsLarge(sizes[j])
  {
    if sizes != [] {
      FirstLargeAbsent(sizes[1..]);
      assert forall j :: 1 <= j < |sizes| ==> sizes[j] == sizes[1..][j - 1];
    }
  }

  /** The first large rendition in list order is chosen, whatever follows it. */
  lemma BestSizeTakesFirstLarge(sizes: seq<PhotoSizeClass>, i: int)
    requires 0 <= i < |sizes| && IsLarge(sizes[i])
    requires forall j :: 0 <= j < i ==> !IsLarge(sizes[j])
    ensures BestSize(sizes) == Some(sizes[i].sizeType)
  {
    FirstLargeAt(sizes, i);
  }

  /** Without a large rendition, any medium one makes the choice "x". */
  lemma BestSizeFallsBackToMedium(sizes: seq<PhotoSizeClass>, i: int)
    requires forall j :: 0 <= j < |sizes| ==> !IsLarge(sizes[j])
    requires 0 <= i < |sizes| && IsMedium(sizes[i])
    ensures BestSize(sizes) == Some("x")
  {
    FirstLargeAbsent(sizes);
  }

  /** Without large or medium renditions, the last descriptor decides. */
  lemma BestSizeFallsBackToLast(sizes: seq<PhotoSizeClass>)
    requires forall j :: 0 <= j < |sizes| ==> !IsLarge(sizes[j]) && !IsMedium(sizes[j])
    ensures BestSize(sizes) ==
      if |sizes| > 0 && Considered(sizes[|sizes| - 1]) && sizes[|sizes| - 1].sizeType != ""
      then Some(sizes[|sizes| - 1].sizeType) else None
  {
    FirstLargeAbsent(sizes);
  }

  /**
   * Selection fails exactly when there is no large or medium rendition and the
   * last descriptor is missing, is not a real size, or has an empty type; in
   * particular it fails on an empty list.
   */
  lemma BestSizeFails(sizes: seq<PhotoSizeClass>)
    ensures BestSize(sizes).None? <==>
      (forall j :: 0 <= j < |sizes| ==> !IsLarge(sizes[j]) && !IsMedium(sizes[j])) &&
      !(|sizes| > 0 && Considered(sizes[|sizes| - 1]) && sizes[|sizes| - 1].sizeType != "")
    ensures sizes == [] ==> BestSize(sizes).None?
  {
    FirstLargeAbsent(sizes);
  }

  lemma {:induction false} FirstLargeOffered(sizes: seq<PhotoSizeClass>)
    ensures FirstLarge(sizes).Some? ==>
      exists j :: 0 <= j < |sizes| && IsLarge(sizes[j]) && sizes[j].sizeType == FirstLarge(sizes).value
  {
    if sizes != [] && !IsLarge(sizes[0]) {
      FirstLargeOffered(sizes[1..]);
      if FirstLarge(sizes).Some? {
        var j :| 0 <= j < |sizes[1..]| && IsLarge(sizes[1..][j]) && sizes[1..][j].sizeType == FirstLarge(sizes).value;
        assert sizes[j + 1] == sizes[1..][j];
      }
    }
  }

  /** A chosen size is always the non-empty type of a considered descriptor of the list. */
  lemma BestSizeIsOffered(sizes: seq<PhotoSizeClass>)
    ensures BestSize(sizes).Some? ==>
      BestSize(sizes).value != "" &&
      exists j :: 0 <= j < |sizes| && Considered(sizes[j]) && sizes[j].sizeType == BestSize(sizes).value
  {
    FirstLargeOffered(sizes);
    if BestSize(sizes).Some? && FirstLarge(sizes).None? && BestSize(sizes).value == "x" {
      var j :| 0 <= j < |sizes| && IsMedium(sizes[j]);
    }
  }

  /**
   * The scan over the descriptors: stop at the first "w" or "y", remember an
   * "x", and after the loop fall back to the last descriptor's type.
   */
  method SelectPhotoSize(sizes: seq<PhotoSizeClass>) returns (best: Option<string>)
    ensures best == BestSize(sizes)
  {
    var bestSize := "";
    var i := 0;
    while i < |sizes|
      invariant 0 <= i <= |sizes|
      invariant forall j :: 0 <= j < i ==> !IsLarge(sizes[j])
      invariant bestSize == if exists j :: 0 <= j < i && IsMedium(sizes[j]) then "x" else ""
    {
      var s := sizes[i];
      if s.PhotoSize? || s.PhotoSizeProgressive? {
        if s.sizeType == "w" || s.sizeType == "y" {
          bestSize := s.sizeType;
          FirstLargeAt(sizes, i);
          break;
        }
        if s.sizeType == "x" {
          bestSize := s.sizeType;
        }
      }
      i := i + 1;
    }

    if i == |sizes| {
      FirstLargeAbsent(sizes);
    }

    if bestSize == "" && |sizes| > 0 {
      var last := sizes[|sizes| - 1];
      if last.PhotoSize? || last.PhotoSizeProgressive? {
        bestSize := last.sizeType;
      }
    }

    best := if bestSize == "" then None else Some(bestSize);
  }
}
