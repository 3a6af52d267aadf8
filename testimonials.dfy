/** The testimonial carousel (src/components/sections/TestimonialsSection.jsx):
    three testimonials on a sliding strip and one dot button per testimonial.
    The file declares its own copy of the header's `cls`, so that one is used. */
module TestimonialsCarousel {
  import opened Header
  import opened Text

  /** A testimonial's author and occasion (the quote is only displayed). */
  datatype Testimonial = Testimonial(name: string, event: string)

  const Testimonials: seq<Testimonial> := [
    Testimonial("Priya & Rohan Sharma", "Wedding in Jaipur"),
    Testimonial("Amit Singh", "Corporate Gala in Delhi"),
    Testimonial("Anjali & Vikram Mehra", "25th Anniversary in Udaipur")
  ]

  /** The strip's `translateX`, in percent of the viewport width to the
      left: one slide width per step. */
  function SlideOffset(index: int): int {
    index * 100
  }

  /** Each slide is `min-w-full`, so slide p covers [100p, 100p + 100) of the
      strip, in percent of the viewport width. Shifted left by offset, the
      viewport shows [offset, offset + 100) of the strip; slide p is in view
      when the two ranges overlap. */
  predicate InView(p: int, offset: int) {
    100 * p < offset + 100 && offset < 100 * p + 100
  }

  /** The testimonials on the first n slides that are in view, in strip
      order. */
  function VisibleAmong(offset: int, n: nat): (r: seq<Testimonial>)
    requires n <= |Testimonials|
    ensures |r| <= n
  {
    if n == 0 then []
    else VisibleAmong(offset, n - 1) + (if InView(n - 1, offset) then [Testimonials[n - 1]] else [])
  }

  /** Dot i is the active one. */
  predicate ActiveDot(i: int, index: int) {
    i == index
  }

  /** Dot i's classes. */
  function DotClasses(i: int, index: int): string {
    Cls([Name("w-2.5 h-2.5 rounded-full"), Name(if ActiveDot(i, index) then "bg-amber-500" else "bg-gray-300")])
  }

  /** Dot i's aria-label: "Go to testimonial " and the position counted from
      one (a single digit for these three dots). */
  function DotLabel(i: int): string
    requires 0 <= i < 9
  {
    "Go to testimonial " + [('1' as int + i) as char]
  }

  /** The number of active dots among dots 0 .. n-1. */
  function ActiveCount(n: nat, index: int): (r: nat)
    ensures r <= n
  {
    if n == 0 then 0 else ActiveCount(n - 1, index) + (if ActiveDot(n - 1, index) then 1 else 0)
  }

  /** For an index among the dots exactly one dot is active; for any other
      index none is. */
  lemma {:induction false} ExactlyOneActive(n: nat, index: int)
    ensures ActiveCount(n, index) == (if 0 <= index < n then 1 else 0)
  {
    if n > 0 {
      ExactlyOneActive(n - 1, index);
    }
  }

  /** At the offset for an index, the slide with that index is the only one
      in view, and it fills the viewport exactly. */
  lemma OnlySlideInView(index: int, p: int)
    ensures InView(p, SlideOffset(index)) <==> p == index
    ensures 100 * index == SlideOffset(index)
  {
  }

  /** Among the first n slides, the one at the index is the only one in view;
      for an index outside them, none is. */
  lemma {:induction false} VisibleAmongIndex(index: int, n: nat)
    requires n <= |Testimonials|
    ensures VisibleAmong(SlideOffset(index), n) == if 0 <= index < n then [Testimonials[index]] else []
  {
    if n > 0 {
      VisibleAmongIndex(index, n - 1);
      OnlySlideInView(index, n - 1);
    }
  }

  /** The strip brings exactly the testimonial at the index into view. */
  lemma OffsetShowsIndex(index: int)
    requires 0 <= index < |Testimonials|
    ensures VisibleAmong(SlideOffset(index), |Testimonials|) == [Testimonials[index]]
  {
    VisibleAmongIndex(index, |Testimonials|);
  }

  /** The active dot is amber and every other dot grey, on top of the same
      shape classes. */
  lemma DotColours(i: int, index: int)
    ensures DotClasses(i, index)
         == "w-2.5 h-2.5 rounded-full " + (if i == index then "bg-amber-500" else "bg-gray-300")
  {
    var color := if i == index then "bg-amber-500" else "bg-gray-300";
    var args := [Name("w-2.5 h-2.5 rounded-full"), Name(color)];
    assert args[1..][1..] == [];
    assert KeptNames(args[1..]) == [color];
    var kept := KeptNames(args);
    assert kept == ["w-2.5 h-2.5 rounded-full", color];
    assert kept[1..] == [color];
    assert Join(kept, " ") == kept[0] + " " + Join(kept[1..], " ");
    assert "w-2.5 h-2.5 rounded-full" + " " == "w-2.5 h-2.5 rounded-full ";
  }

  /** The labels count from one and tell the dots apart. */
  lemma DotLabelsDistinct(i: int, j: int)
    requires 0 <= i < |Testimonials| && 0 <= j < |Testimonials| && i != j
    ensures DotLabel(i) != DotLabel(j)
  {
    assert DotLabel(i)[18] != DotLabel(j)[18];
  }

  /** The section's one state hook. */
  class Carousel {
    var index: int

    /** The index names one of the testimonials. */
    predicate Valid()
      reads this
    {
      0 <= index < |Testimonials|
    }

    /** The testimonial on screen. */
    function Current(): Testimonial
      reads this
      requires Valid()
    {
      Testimonials[index]
    }

    /** The first testimonial is shown first. */
    constructor ()
      ensures Valid() && index == 0
    {
      index := 0;
    }

    /** Dot i's button; only the three dots exist. */
    method ClickDot(i: int)
      requires Valid()
      modifies this
      ensures Valid()
      ensures 0 <= i < |Testimonials| ==> index == i
      ensures !(0 <= i < |Testimonials|) ==> index == old(index)
    {
      if 0 <= i < |Testimonials| {
        index := i;
      }
    }
  }

  /** Pressing the second dot slides the strip one width to the left, shows
      the second testimonial and leaves its dot the only active one. */
  method ShowSecond() returns (offset: int, shown: Testimonial, active: nat)
    ensures offset == 100 && shown == Testimonials[1] && active == 1
    ensures VisibleAmong(offset, |Testimonials|) == [shown]
  {
    var c := new Carousel();
    c.ClickDot(1);
    offset := SlideOffset(c.index);
    shown := c.Current();
    OffsetShowsIndex(c.index);
    ExactlyOneActive(|Testimonials|, c.index);
    active := ActiveCount(|Testimonials|, c.index);
  }
}
