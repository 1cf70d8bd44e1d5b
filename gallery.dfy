/** The image switcher of the detail page (`renderGame`): a fixed list of images, a
    current position `i`, and the "prev"/"next" buttons, which move `i` cyclically and
    are disabled when there is only one image. */
module Gallery {
  import opened Records

  /** `(i - 1 + n) % n`: one step back, from the first image to the last. */
  function StepBack(i: nat, n: nat): (r: nat)
    requires i < n
    ensures r < n
    ensures i == 0 ==> r == n - 1
    ensures i > 0 ==> r == i - 1
  {
    (i - 1 + n) % n
  }

  /** `(i + 1) % n`: one step forward, from the last image to the first. */
  function StepForward(i: nat, n: nat): (r: nat)
    requires i < n
    ensures r < n
    ensures i == n - 1 ==> r == 0
    ensures i < n - 1 ==> r == i + 1
  {
    (i + 1) % n
  }

  /** "prev" undoes "next", and "next" undoes "prev". */
  lemma StepsAreInverse(i: nat, n: nat)
    requires i < n
    ensures StepForward(StepBack(i, n), n) == i
    ensures StepBack(StepForward(i, n), n) == i
  {
  }

  /** `k` clicks on "next". */
  function Forward(i: nat, n: nat, k: nat): (r: nat)
    requires i < n
    ensures r < n
  {
    if k == 0 then i else StepForward(Forward(i, n, k - 1), n)
  }

  /** The remainder of `m` by `n`, by repeated subtraction. */
  function Rem(m: nat, n: nat): (r: nat)
    requires n > 0
    ensures r < n
  {
    if m < n then m else Rem(m - n, n)
  }

  /** Repeated subtraction computes `%`. */
  lemma {:induction false} RemIsMod(m: nat, n: nat)
    requires n > 0
    ensures Rem(m, n) == m % n
  {
    if m >= n {
      RemIsMod(m - n, n);
      ModShift(m - n, n);
    }
  }

  /** Adding `n` does not change the remainder by `n`. */
  lemma ModShift(x: nat, n: nat)
    requires n > 0
    ensures (x + n) % n == x % n
  {
    var d1, r1 := (x + n) / n, (x + n) % n;
    var d2, r2 := x / n, x % n;
    var c := d1 - d2 - 1;
    assert c * n == r2 - r1;
    if c >= 1 {
      MulGrows(c, n);
    } else if c <= -1 {
      MulGrows(-c, n);
    }
  }

  lemma {:induction false} MulGrows(c: nat, n: nat)
    requires c >= 1
    ensures c * n >= n
  {
    if c > 1 {
      MulGrows(c - 1, n);
      assert c * n == (c - 1) * n + n;
    }
  }

  /** One more step forward is one more before taking the remainder. */
  lemma {:induction false} RemSucc(m: nat, n: nat)
    requires n > 0
    ensures StepForward(Rem(m, n), n) == Rem(m + 1, n)
  {
    if m >= n {
      RemSucc(m - n, n);
    }
  }

  /** After `k` clicks on "next" the position is `(i + k) % n`. */
  lemma {:induction false} ForwardIsModular(i: nat, n: nat, k: nat)
    requires i < n
    ensures Forward(i, n, k) == (i + k) % n
  {
    ForwardIsRem(i, n, k);
    RemIsMod(i + k, n);
  }

  lemma {:induction false} ForwardIsRem(i: nat, n: nat, k: nat)
    requires i < n
    ensures Forward(i, n, k) == Rem(i + k, n)
  {
    if k > 0 {
      ForwardIsRem(i, n, k - 1);
      RemSucc(i + k - 1, n);
    }
  }

  /** `n` clicks on "next" go once round the images and back to where they started. */
  lemma FullCycle(i: nat, n: nat)
    requires i < n
    ensures Forward(i, n, n) == i
  {
    ForwardIsRem(i, n, n);
  }

  /** What `show()` renders: the current image and the two disabled flags. */
  datatype Frame = Frame(src: string, prevDisabled: bool, nextDisabled: bool)

  class Switcher {
    const images: seq<string>
    var i: nat

    ghost predicate Valid()
      reads this
    {
      |images| > 0 && i < |images|
    }

    /** `let i = 0`: the gallery opens on the first image of the record. */
    constructor (g: Game)
      ensures Valid() && images == ImagesOf(g) && i == 0
    {
      images := ImagesOf(g);
      i := 0;
    }

    /** `show()`: both buttons are disabled exactly when there is one image. */
    function Show(): (f: Frame)
      requires Valid()
      reads this
      ensures f.src == images[i] && f.src in images
      ensures f.prevDisabled <==> |images| == 1
      ensures f.nextDisabled <==> |images| == 1
    {
      Frame(images[i], |images| <= 1, |images| <= 1)
    }

    /** A click on "prev". */
    method Prev() returns (f: Frame)
      requires Valid()
      modifies this
      ensures Valid() && i == StepBack(old(i), |images|)
      ensures f == Show()
    {
      i := (i - 1 + |images|) % |images|;
      f := Show();
    }

    /** A click on "next". */
    method Next() returns (f: Frame)
      requires Valid()
      modifies this
      ensures Valid() && i == StepForward(old(i), |images|)
      ensures f == Show()
    {
      i := (i + 1) % |images|;
      f := Show();
    }
  }

  /** With a single image the buttons change nothing. */
  method SingleImageStays(s: Switcher) returns (f: Frame)
    requires s.Valid() && |s.images| == 1
    modifies s
    ensures s.i == 0 && f.src == s.images[0] && f.prevDisabled && f.nextDisabled
  {
    f := s.Next();
    f := s.Prev();
  }

  /** "next" then "prev" shows the image shown before. */
  method NextThenPrev(s: Switcher) returns (f: Frame)
    requires s.Valid()
    modifies s
    ensures s.Valid() && s.i == old(s.i) && f.src == old(s.images[s.i])
  {
    var _ := s.Next();
    f := s.Prev();
    StepsAreInverse(old(s.i), |s.images|);
  }
}
