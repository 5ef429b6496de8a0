/** The video carousel's index and auto-play state. Index arithmetic is
    JavaScript's: a remainder by zero videos is `NaN`, and a `NaN` index
    shows no video. */
module VideoCarousel {
  import opened Wrappers
  import opened Numeric

  /** The current index: a number, or `NaN`. */
  datatype Index = At(i: int) | NaN

  datatype Carousel = Carousel(index: Index, autoPlaying: bool)

  /** What a handler produces: the new state and the video handed to the
      selection callback, if any. */
  datatype Step = Step(state: Carousel, selected: Option<nat>)

  /** What the component renders for `n` videos. */
  datatype View = Placeholder | Showing(current: nat, counter: (nat, nat))

  /** The carousel as mounted: the first video, auto-playing if asked. */
  function Init(autoPlay: bool): (c: Carousel)
    ensures c.index == At(0) && c.autoPlaying == autoPlay
  {
    Carousel(At(0), autoPlay)
  }

  /** `(prev + 1) % n` */
  function Succ(x: Index, n: nat): (y: Index)
    ensures n == 0 || x.NaN? <==> y.NaN?
    ensures n > 0 && x.At? && x.i >= 0 ==> y.At? && 0 <= y.i < n
  {
    if x.NaN? || n == 0 then NaN else At(JsRem(x.i + 1, n))
  }

  /** `(prev - 1 + n) % n` */
  function Pred(x: Index, n: nat): (y: Index)
    ensures n == 0 || x.NaN? <==> y.NaN?
    ensures n > 0 && x.At? && x.i >= 0 ==> y.At? && 0 <= y.i < n
  {
    if x.NaN? || n == 0 then NaN else At(JsRem(x.i - 1 + n, n))
  }

  /** Inside the list, stepping forward is adding one with wrap-around,
      and stepping back is subtracting one with wrap-around. */
  lemma StepsWrap(i: nat, n: nat)
    requires i < n
    ensures Succ(At(i), n) == At(if i + 1 == n then 0 else i + 1)
    ensures Pred(At(i), n) == At(if i == 0 then n - 1 else i - 1)
  {
    if i + 1 == n {
      ModUnique(i + 1, n, 1, 0);
    } else {
      ModUnique(i + 1, n, 0, i + 1);
    }
    if i == 0 {
      ModUnique(n - 1, n, 0, n - 1);
    } else {
      ModUnique(i - 1 + n, n, 1, i - 1);
    }
  }

  /** Previous undoes next, and next undoes previous. */
  lemma PredSuccInverse(i: nat, n: nat)
    requires i < n
    ensures Pred(Succ(At(i), n), n) == At(i)
    ensures Succ(Pred(At(i), n), n) == At(i)
  {
    StepsWrap(i, n);
    var s, p := Succ(At(i), n).i, Pred(At(i), n).i;
    StepsWrap(s, n);
    StepsWrap(p, n);
  }

  /** Stepping forward `k` times. */
  function SuccN(x: Index, n: nat, k: nat): Index
    decreases k
  {
    if k == 0 then x else Succ(SuccN(x, n, k - 1), n)
  }

  /** `k` steps forward land `k` places further on, modulo `n`. */
  lemma {:induction false} SuccNIsAdd(i: nat, n: nat, k: nat)
    requires i < n
    ensures SuccN(At(i), n, k) == At((i + k) % n)
    decreases k
  {
    if k > 0 {
      SuccNIsAdd(i, n, k - 1);
      StepsWrap((i + k - 1) % n, n);
      AddOneMod(i + k - 1, n);
    }
  }

  lemma AddOneMod(x: nat, n: nat)
    requires n > 0
    ensures (x + 1) % n == if x % n + 1 == n then 0 else x % n + 1
  {
    var q, j := x / n, x % n;
    assert x == q * n + j;
    if j + 1 == n {
      assert x + 1 == (q + 1) * n;
      ModUnique(x + 1, n, q + 1, 0);
    } else {
      ModUnique(x + 1, n, q, j + 1);
    }
  }

  /** `n` steps forward come back to where they started. */
  lemma FullCycle(i: nat, n: nat)
    requires i < n
    ensures SuccN(At(i), n, n) == At(i)
  {
    SuccNIsAdd(i, n, n);
    ModUnique(i + n, n, 1, i);
  }

  /** Three videos: next cycles 0, 1, 2, 0 and previous cycles 0, 2, 1, 0. */
  lemma ThreeVideoCycles()
    ensures Succ(At(0), 3) == At(1) && Succ(At(1), 3) == At(2) && Succ(At(2), 3) == At(0)
    ensures Pred(At(0), 3) == At(2) && Pred(At(2), 3) == At(1) && Pred(At(1), 3) == At(0)
  {
    StepsWrap(0, 3);
    StepsWrap(1, 3);
    StepsWrap(2, 3);
  }

  /** `handlePrevious` */
  function Previous(c: Carousel, n: nat): (r: Carousel)
    ensures !r.autoPlaying && r.index == Pred(c.index, n)
  {
    Carousel(Pred(c.index, n), false)
  }

  /** `handleNext` */
  function Next(c: Carousel, n: nat): (r: Carousel)
    ensures !r.autoPlaying && r.index == Succ(c.index, n)
  {
    Carousel(Succ(c.index, n), false)
  }

  /** The video at a given index, if the list has one there. */
  function VideoAt(x: Index, n: nat): (v: Option<nat>)
    ensures v.Some? <==> x.At? && 0 <= x.i < n
    ensures v.Some? ==> v.value == x.i
  {
    if x.At? && 0 <= x.i < n then Some(x.i) else None
  }

  /** `handleThumbnailClick`: jump to a video, stop auto-play, and select
      the video when there is one at that index. */
  function ThumbnailClick(c: Carousel, n: nat, k: int): (r: Step)
    ensures r.state == Carousel(At(k), false)
    ensures r.selected.Some? <==> 0 <= k < n
    ensures r.selected.Some? ==> r.selected.value == k
  {
    Step(Carousel(At(k), false), VideoAt(At(k), n))
  }

  /** `handlePlayClick`: select the current video; the state is kept. */
  function PlayClick(c: Carousel, n: nat): (r: Step)
    ensures r.state == c
    ensures r.selected == VideoAt(c.index, n)
  {
    Step(c, VideoAt(c.index, n))
  }

  /** One tick of the auto-play interval. No interval runs while auto-play
      is off or the list is empty. */
  function AutoTick(c: Carousel, n: nat): (r: Carousel)
    ensures r.autoPlaying == c.autoPlaying
    ensures !c.autoPlaying || n == 0 ==> r == c
    ensures c.autoPlaying && n > 0 ==> r.index == Succ(c.index, n)
  {
    if !c.autoPlaying || n == 0 then c else c.(index := Succ(c.index, n))
  }

  /** The rendered view: the placeholder when there is no video at the
      index, otherwise that video and the counter `index + 1 / n`. */
  function Render(c: Carousel, n: nat): (v: View)
    ensures v.Placeholder? <==> VideoAt(c.index, n).None?
    ensures v.Showing? ==> v.current == c.index.i && v.counter == (v.current + 1, n)
  {
    match VideoAt(c.index, n)
    case None => Placeholder
    case Some(i) => Showing(i, (i + 1, n))
  }

  /** `index === currentIndex` for the indicator dot of video `k`: it is
      highlighted exactly when video `k` is the one shown, so at most one
      dot is, and none on a `NaN` index. */
  predicate DotActive(c: Carousel, n: nat, k: nat): (b: bool)
    requires k < n
    ensures b <==> Render(c, n).Showing? && Render(c, n).current == k
  {
    c.index == At(k)
  }

  /** Manual navigation always stops auto-play; ticks never change it. */
  lemma ManualStopsAutoPlay(c: Carousel, n: nat, k: int)
    ensures !Previous(c, n).autoPlaying && !Next(c, n).autoPlaying
    ensures !ThumbnailClick(c, n, k).state.autoPlaying
    ensures AutoTick(c, n).autoPlaying == c.autoPlaying
  {
  }

  /** With no videos the placeholder shows and nothing ticks. */
  lemma EmptyList(c: Carousel)
    ensures Render(c, 0) == Placeholder
    ensures AutoTick(c, 0) == c
  {
  }

  /** A counter reads between `1 / n` and `n / n`. */
  lemma CounterInRange(c: Carousel, n: nat)
    requires Render(c, n).Showing?
    ensures 1 <= Render(c, n).counter.0 <= n
  {
  }

  /** From any valid index the next and previous videos exist, and from an
      index past the end (a list that shrank) they lead back into it. */
  lemma NavigationShowsVideo(c: Carousel, n: nat)
    requires n > 0 && c.index.At? && c.index.i >= 0
    ensures Render(Next(c, n), n).Showing? && Render(Previous(c, n), n).Showing?
  {
  }

  /** Once `NaN`, always `NaN`: an empty list poisons the index for good. */
  lemma NaNSticks(c: Carousel, n: nat, m: nat)
    requires n == 0 && c.index.At?
    ensures Next(c, n).index == NaN
    ensures Render(Next(Next(c, n), m), m) == Placeholder
  {
  }
}
