/** The product page's image gallery: the de-duplicated thumbnail strip and the
    image shown large. */
module Gallery {
  import Seqs
  import Dedupe

  /** Images are compared by their url itself. */
  function UrlKey(): string -> string {
    s => s
  }

  /** `galleryImages`: `[mainImage, ...thumbnails]` without empty urls and
      without repeats, in order of first occurrence. */
  function GalleryImages(mainImage: string, thumbnails: seq<string>): seq<string> {
    Dedupe.Unique([mainImage] + thumbnails, UrlKey())
  }

  /** The strip has no repeats and no empty url, starts with a non-empty main
      image, and shows every non-empty url it was given, and nothing else. */
  lemma GalleryImagesShape(mainImage: string, thumbnails: seq<string>)
    ensures var g := GalleryImages(mainImage, thumbnails);
            Seqs.Distinct(g) &&
            (forall i :: 0 <= i < |g| ==> g[i] != "") &&
            (mainImage != "" ==> g != [] && g[0] == mainImage) &&
            (forall x :: x in [mainImage] + thumbnails && x != "" ==> x in g) &&
            (forall x :: x in g ==> x in [mainImage] + thumbnails)
            && Seqs.Subseq(g, [mainImage] + thumbnails)
  {
    var s := [mainImage] + thumbnails;
    var g := GalleryImages(mainImage, thumbnails);
    Dedupe.UniqueDistinctKeys(s, UrlKey());
    assert forall i :: 0 <= i < |g| ==> UrlKey()(g[i]) == g[i];
    if mainImage != "" {
      Dedupe.UniqueHead(s, UrlKey());
    }
    Dedupe.UniqueKeys(s, UrlKey());
    forall x | x in s && x != "" ensures x in g {
      var i :| 0 <= i < |s| && s[i] == x;
      Dedupe.SeenKeysMeaning(s, UrlKey(), x);
      var k :| 0 <= k < |g| && UrlKey()(g[k]) == x;
    }
    Dedupe.UniqueIsSubseq(s, UrlKey());
    Seqs.SubseqMembers(g, s);
  }

  /** First-occurrence order: the strip takes its images from increasing
      positions of `[mainImage] + thumbnails`, each the first position of its
      url, and every first position of a non-empty url is among them. */
  lemma GalleryImagesOrder(mainImage: string, thumbnails: seq<string>) returns (idx: seq<nat>)
    ensures var s, g := [mainImage] + thumbnails, GalleryImages(mainImage, thumbnails);
            && |idx| == |g|
            && (forall k :: 0 <= k < |idx| ==>
                  idx[k] < |s| && g[k] == s[idx[k]] && forall j :: 0 <= j < idx[k] ==> s[j] != g[k])
            && (forall k1, k2 :: 0 <= k1 < k2 < |idx| ==> idx[k1] < idx[k2])
            && (forall i :: 0 <= i < |s| && s[i] != "" && (forall j :: 0 <= j < i ==> s[j] != s[i]) ==> i in idx)
  {
    var s := [mainImage] + thumbnails;
    idx := Dedupe.UniquePositions(s, UrlKey());
    assert forall i :: Dedupe.FirstWithKey(s, UrlKey(), i) <==>
             0 <= i < |s| && s[i] != "" && forall j :: 0 <= j < i ==> s[j] != s[i];
  }

  /** The gallery's `activeImage` state over its fixed props. */
  class GalleryView {
    const mainImage: string
    const thumbnails: seq<string>
    const images: seq<string>
    var activeImage: string

    ghost predicate Valid()
      reads this
    {
      images == GalleryImages(mainImage, thumbnails)
    }

    constructor (mainImage: string, thumbnails: seq<string>)
      ensures Valid() && this.mainImage == mainImage && this.thumbnails == thumbnails
      ensures activeImage == if images != [] then images[0] else mainImage
    {
      this.mainImage := mainImage;
      this.thumbnails := thumbnails;
      var list := Dedupe.UniqueBy([mainImage] + thumbnails, UrlKey());
      this.images := list;
      activeImage := if list != [] then list[0] else mainImage;
    }

    /** `active`: the chosen image, falling back to the main image when empty. */
    function Active(): (a: string)
      reads this
      ensures activeImage != "" ==> a == activeImage
      ensures activeImage == "" ==> a == mainImage
    {
      if activeImage != "" then activeImage else mainImage
    }

    /** Whether thumbnail `i` is drawn highlighted (`image === active`). */
    predicate IsActive(i: nat)
      reads this
      requires i < |images|
    {
      images[i] == Active()
    }

    /** Clicking thumbnail `i` makes it the active one, and the only one highlighted. */
    method SelectThumbnail(i: nat)
      requires Valid() && i < |images|
      modifies this
      ensures Valid() && activeImage == images[i] && Active() == images[i]
      ensures forall j :: 0 <= j < |images| ==> (IsActive(j) <==> j == i)
    {
      activeImage := images[i];
      OneThumbnailActive(mainImage, thumbnails, activeImage, i);
    }
  }

  /** The large image starts as the first thumbnail; only an empty strip
      leaves it at the (then empty) main image. */
  lemma InitialActive(mainImage: string, thumbnails: seq<string>)
    ensures var g := GalleryImages(mainImage, thumbnails);
            var active := if g != [] then g[0] else mainImage;
            (mainImage != "" ==> active == mainImage) &&
            (g == [] ==> active == "")
  {
    var g := GalleryImages(mainImage, thumbnails);
    GalleryImagesShape(mainImage, thumbnails);
    if g == [] {
      assert mainImage in [mainImage] + thumbnails;
    }
  }

  /** At most one thumbnail is highlighted, and after clicking thumbnail `k`
      it is exactly that one. */
  lemma OneThumbnailActive(mainImage: string, thumbnails: seq<string>, active: string, k: nat)
    ensures Seqs.CountOf(GalleryImages(mainImage, thumbnails), active) <= 1
    ensures k < |GalleryImages(mainImage, thumbnails)| ==>
              var g := GalleryImages(mainImage, thumbnails);
              g[k] != "" && Seqs.CountOf(g, g[k]) == 1 &&
              forall j :: 0 <= j < |g| && j != k ==> g[j] != g[k]
  {
    var g := GalleryImages(mainImage, thumbnails);
    GalleryImagesShape(mainImage, thumbnails);
    Seqs.DistinctCountAtMostOne(g, active);
    if k < |g| {
      Seqs.DistinctCountAtMostOne(g, g[k]);
    }
  }
}
