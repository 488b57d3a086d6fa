/** The image carousel of the product page: one state cell, currentImageIndex,
    moved cyclically by the arrow buttons and set directly by the dot and
    thumbnail buttons. */
module ProductDetails {
  import opened Wrappers
  import opened Backend

  // ---- The update rules ----

  /** nextImage's step among n images: forward, wrapping from the last to the first. */
  function Next(i: nat, n: nat): (r: nat)
    requires n > 0
    ensures r < n
    ensures i + 1 < n ==> r == i + 1
    ensures i + 1 == n ==> r == 0
  {
    (i + 1) % n
  }

  /** prevImage's step among n images: backward, wrapping from the first to the
      last. The index is never negative, so the left operand of % is not either and
      JavaScript's remainder agrees with Dafny's. */
  function Prev(i: nat, n: nat): (r: nat)
    requires n > 0
    ensures r < n
    ensures 0 < i <= n ==> r == i - 1
    ensures i == 0 ==> r == n - 1
  {
    (i - 1 + n) % n
  }

  /** Going back after going forward restores an index in range. */
  lemma PrevNext(i: nat, n: nat)
    requires i < n
    ensures Prev(Next(i, n), n) == i
  {
  }

  /** Going forward after going back restores an index in range. */
  lemma NextPrev(i: nat, n: nat)
    requires i < n
    ensures Next(Prev(i, n), n) == i
  {
  }

  /** The index after k presses of the forward arrow. */
  function Advance(i: nat, n: nat, k: nat): (r: nat)
    requires n > 0
    ensures k > 0 ==> r < n
  {
    if k == 0 then i else Next(Advance(i, n, k - 1), n)
  }

  /** Up to n presses forward move an index in range that many places round the
      cycle, wrapping once past the last image. */
  lemma {:induction false} AdvanceWraps(i: nat, n: nat, k: nat)
    requires i < n && k <= n
    ensures Advance(i, n, k) == if i + k < n then i + k else i + k - n
  {
    if k > 0 {
      AdvanceWraps(i, n, k - 1);
    }
  }

  /** n presses of the forward arrow come back to where they started. */
  lemma FullCycle(i: nat, n: nat)
    requires i < n
    ensures Advance(i, n, n) == i
  {
    AdvanceWraps(i, n, n);
  }

  // ---- What the buttons show ----

  /** The image the main view shows: images[currentImageIndex], or nothing when
      the index is past the end (JavaScript's undefined). */
  function ShownImage(images: seq<ImageUrl>, index: nat): (r: Option<ImageUrl>)
    ensures r.Some? <==> index < |images|
    ensures r.Some? ==> r.value == images[index]
  {
    if index < |images| then Some(images[index]) else None
  }

  /** A thumbnail button: the image it shows, and whether it is highlighted. */
  datatype Thumbnail = Thumbnail(image: ImageUrl, highlighted: bool)

  /** The thumbnail strip, present only with two or more images: images.slice(0, 4),
      the one at the current index highlighted. Clicking the k-th sets the index to k. */
  function Thumbnails(images: seq<ImageUrl>, current: nat): (r: seq<Thumbnail>)
    ensures |images| <= 1 ==> r == []
    ensures |images| > 1 ==> |r| == if |images| < 4 then |images| else 4
    ensures forall k :: 0 <= k < |r| ==> r[k].image == images[k]
    ensures forall k :: 0 <= k < |r| ==> (r[k].highlighted <==> k == current)
  {
    if |images| <= 1 then []
    else
      var shown := if |images| < 4 then |images| else 4;
      seq(shown, k requires 0 <= k < shown => Thumbnail(images[k], k == current))
  }

  /** The dot buttons, present only with two or more images: one per image, the one
      at the current index highlighted. Clicking the k-th sets the index to k. */
  function Dots(images: seq<ImageUrl>, current: nat): (r: seq<bool>)
    ensures |images| <= 1 ==> r == []
    ensures |images| > 1 ==> |r| == |images|
    ensures forall k :: 0 <= k < |r| ==> (r[k] <==> k == current)
  {
    if |images| <= 1 then [] else seq(|images|, k requires 0 <= k < |images| => k == current)
  }

  /** The positions of the highlighted dots. */
  function LitDots(dots: seq<bool>): set<nat>
  {
    set j: nat | j < |dots| && dots[j]
  }

  /** The positions of the highlighted thumbnails. */
  function LitThumbnails(thumbnails: seq<Thumbnail>): set<nat>
  {
    set j: nat | j < |thumbnails| && thumbnails[j].highlighted
  }

  /** With two or more images and the index on image i: exactly the i-th dot is
      highlighted, the i-th thumbnail is highlighted when it is among the first four
      and no thumbnail otherwise, and the main view shows images[i]. This holds
      whichever button or arrow put the index there. */
  lemma ButtonsFollowIndex(images: seq<ImageUrl>, i: nat)
    requires 1 < |images| && i < |images|
    ensures LitDots(Dots(images, i)) == {i}
    ensures LitThumbnails(Thumbnails(images, i)) == if i < 4 then {i} else {}
    ensures ShownImage(images, i) == Some(images[i])
  {
    var dots, thumbnails := Dots(images, i), Thumbnails(images, i);
    assert dots[i];
    assert i < 4 ==> thumbnails[i].highlighted;
  }

  /** After a forward or backward arrow press, the highlighted dot and thumbnail
      move to the new image and the main view shows it. */
  lemma ArrowsMoveHighlight(images: seq<ImageUrl>, i: nat)
    requires 1 < |images| && i < |images|
    ensures var j := Next(i, |images|);
      LitDots(Dots(images, j)) == {j} && ShownImage(images, j) == Some(images[j])
      && LitThumbnails(Thumbnails(images, j)) == (if j < 4 then {j} else {})
    ensures var j := Prev(i, |images|);
      LitDots(Dots(images, j)) == {j} && ShownImage(images, j) == Some(images[j])
      && LitThumbnails(Thumbnails(images, j)) == (if j < 4 then {j} else {})
  {
    ButtonsFollowIndex(images, Next(i, |images|));
    ButtonsFollowIndex(images, Prev(i, |images|));
  }

  // ---- The state cell ----

  /** The currentImageIndex state of one product page. */
  class ImageCarousel {
    var currentImageIndex: nat

    /** A product page opens on its first image. */
    constructor ()
      ensures currentImageIndex == 0
    {
      currentImageIndex := 0;
    }

    /** nextImage: one step forward among the product's images; no product, or
        one without images, leaves the index as it is. */
    method NextImage(product: Option<Product>)
      modifies this
      ensures product.Some? && |product.value.images| > 0 ==>
        currentImageIndex == Next(old(currentImageIndex), |product.value.images|)
        && ShownImage(product.value.images, currentImageIndex).Some?
      ensures product.Some? && |product.value.images| > 1 ==>
        && LitDots(Dots(product.value.images, currentImageIndex)) == {currentImageIndex}
        && LitThumbnails(Thumbnails(product.value.images, currentImageIndex))
           == (if currentImageIndex < 4 then {currentImageIndex} else {})
      ensures !(product.Some? && |product.value.images| > 0) ==>
        currentImageIndex == old(currentImageIndex)
    {
      if product.Some? && |product.value.images| > 0 {
        currentImageIndex := Next(currentImageIndex, |product.value.images|);
        if |product.value.images| > 1 {
          ButtonsFollowIndex(product.value.images, currentImageIndex);
        }
      }
    }

    /** prevImage: one step back among the product's images; no product, or one
        without images, leaves the index as it is. */
    method PrevImage(product: Option<Product>)
      modifies this
      ensures product.Some? && |product.value.images| > 0 ==>
        currentImageIndex == Prev(old(currentImageIndex), |product.value.images|)
        && ShownImage(product.value.images, currentImageIndex).Some?
      ensures product.Some? && |product.value.images| > 1 ==>
        && LitDots(Dots(product.value.images, currentImageIndex)) == {currentImageIndex}
        && LitThumbnails(Thumbnails(product.value.images, currentImageIndex))
           == (if currentImageIndex < 4 then {currentImageIndex} else {})
      ensures !(product.Some? && |product.value.images| > 0) ==>
        currentImageIndex == old(currentImageIndex)
    {
      if product.Some? && |product.value.images| > 0 {
        currentImageIndex := Prev(currentImageIndex, |product.value.images|);
        if |product.value.images| > 1 {
          ButtonsFollowIndex(product.value.images, currentImageIndex);
        }
      }
    }

    /** The click handler of the dot or thumbnail at position idx among the
        product's images: that button, and only it, lights up. */
    method Select(images: seq<ImageUrl>, idx: nat)
      modifies this
      ensures currentImageIndex == idx
      ensures 1 < |images| && idx < |images| ==>
        LitDots(Dots(images, currentImageIndex)) == {idx}
        && LitThumbnails(Thumbnails(images, currentImageIndex)) == (if idx < 4 then {idx} else {})
    {
      currentImageIndex := idx;
      if 1 < |images| && idx < |images| {
        ButtonsFollowIndex(images, idx);
      }
    }
  }
}
