/** The scroll-state classifier of a scroll view.

    The classifier reads five numbers from a scroll view (vertical content
    offset, top content inset, content height, frame height and the vertical
    velocity of the pan gesture) and reports whether the view is overscrolled
    past its top or bottom edge ("bouncing"), whether the gesture moves the
    content up or down ("scrolling"), and one `State` chosen by a fixed
    priority chain. `State` is an option set over an unsigned 64-bit raw
    value: four single-bit primary flags, two unions of them, and an
    `Unknown` sentinel at bit 10.
 */
module ScrollState {
  import opened OptionBits

  /** The raw value of an option set: an unsigned 64-bit word. */
  type UInt = x: nat | x < 0x1_0000_0000_0000_0000

  lemma WordBound()
    ensures Pow2(64) == 0x1_0000_0000_0000_0000
  {
    assert Pow2(16) == 0x1_0000 by {
      assert Pow2(8) == 0x100;
    }
    assert Pow2(32) == 0x1_0000_0000 by {
      PowAdd(16, 16);
    }
    PowAdd(32, 32);
  }

  lemma {:induction false} PowAdd(j: nat, k: nat)
    ensures Pow2(j + k) == Pow2(j) * Pow2(k)
  {
    if j > 0 {
      PowAdd(j - 1, k);
    }
  }

  /** An option set: its members are the one bits of `rawValue`. */
  datatype State = State(rawValue: UInt)

  /** The empty option set. */
  const Empty := State(0)

  /** Union of two option sets: the bitwise or of their raw values. */
  function Union(a: State, b: State): (r: State)
    ensures forall i: nat :: Bit(r.rawValue, i) == (Bit(a.rawValue, i) || Bit(b.rawValue, i))
  {
    WordBound();
    OrBelow(a.rawValue, b.rawValue, 64);
    var r := State(Or(a.rawValue, b.rawValue));
    assert forall i: nat :: Bit(r.rawValue, i) == (Bit(a.rawValue, i) || Bit(b.rawValue, i)) by {
      forall i: nat ensures Bit(r.rawValue, i) == (Bit(a.rawValue, i) || Bit(b.rawValue, i)) {
        OrBit(a.rawValue, b.rawValue, i);
      }
    }
    r
  }

  /** Intersection of two option sets: the bitwise and of their raw values. */
  function Intersection(a: State, b: State): (r: State)
    ensures forall i: nat :: Bit(r.rawValue, i) == (Bit(a.rawValue, i) && Bit(b.rawValue, i))
  {
    AndAtMost(a.rawValue, b.rawValue);
    var r := State(And(a.rawValue, b.rawValue));
    assert forall i: nat :: Bit(r.rawValue, i) == (Bit(a.rawValue, i) && Bit(b.rawValue, i)) by {
      forall i: nat ensures Bit(r.rawValue, i) == (Bit(a.rawValue, i) && Bit(b.rawValue, i)) {
        AndBit(a.rawValue, b.rawValue, i);
      }
    }
    r
  }

  /** `s.contains(m)`: intersecting s with m gives back m, i.e. every bit of m is a bit of s. */
  predicate Contains(s: State, m: State)
    ensures Contains(s, m) <==> forall i: nat :: Bit(m.rawValue, i) ==> Bit(s.rawValue, i)
  {
    SubsetByBits(s.rawValue, m.rawValue);
    Intersection(s, m) == m
  }

  /** An option set written as an array literal: start from the empty set and
      insert (union in) the elements from left to right. */
  function FromArrayLiteral(xs: seq<State>): (r: State)
    ensures forall i: nat :: Bit(r.rawValue, i) <==> exists j :: 0 <= j < |xs| && Bit(xs[j].rawValue, i)
  {
    if xs == [] then
      assert forall i: nat :: !Bit(0, i) by {
        forall i: nat ensures !Bit(0, i) {
          ZeroHasNoBits(i);
        }
      }
      Empty
    else
      var init := xs[..|xs| - 1];
      var r := Union(FromArrayLiteral(init), xs[|xs| - 1]);
      assert forall i: nat :: Bit(r.rawValue, i) <==> exists j :: 0 <= j < |xs| && Bit(xs[j].rawValue, i) by {
        forall i: nat ensures Bit(r.rawValue, i) <==> exists j :: 0 <= j < |xs| && Bit(xs[j].rawValue, i) {
          if exists j :: 0 <= j < |xs| && Bit(xs[j].rawValue, i) {
            var j :| 0 <= j < |xs| && Bit(xs[j].rawValue, i);
            if j < |xs| - 1 {
              assert init[j] == xs[j];
            }
          }
          if Bit(r.rawValue, i) && !Bit(xs[|xs| - 1].rawValue, i) {
            var j :| 0 <= j < |init| && Bit(init[j].rawValue, i);
            assert xs[j] == init[j];
          }
        }
      }
      r
  }

  /** The primary flags and the sentinel: `1 << 0` … `1 << 3` and `1 << 10`. */
  const BouncingTop := State(1)
  const BouncingBottom := State(2)
  const ScrollingUp := State(4)
  const ScrollingDown := State(8)
  const Unknown := State(1024)

  /** The two groups, written as array literals of their members. */
  const Bouncing := FromArrayLiteral([BouncingTop, BouncingBottom])
  const Scrolling := FromArrayLiteral([ScrollingUp, ScrollingDown])

  /** The values the classifier can report. */
  const Outcomes: seq<State> := [BouncingTop, BouncingBottom, ScrollingUp, ScrollingDown, Unknown]

  /** What the classifier reads from the scroll view at the moment it is asked. */
  datatype ScrollSnapshot = ScrollSnapshot(
    offsetY: real,        // content offset, vertical
    insetTop: real,       // content inset, top edge
    contentHeight: real,  // content size, height
    frameHeight: real,    // frame, height
    velocityY: real)      // pan-gesture velocity in the superview, vertical

  /** The bottom limit: the smallest offset that counts as bouncing at the
      bottom (the comparison is inclusive, so the limit itself counts). */
  function OffsetBottomLimit(v: ScrollSnapshot): real {
    v.contentHeight - v.frameHeight
  }

  predicate IsBouncingTop(v: ScrollSnapshot) {
    v.offsetY <= -v.insetTop
  }

  predicate IsBouncingBottom(v: ScrollSnapshot) {
    v.offsetY >= OffsetBottomLimit(v)
  }

  predicate IsBouncing(v: ScrollSnapshot) {
    IsBouncingTop(v) || IsBouncingBottom(v)
  }

  predicate IsScrollingUp(v: ScrollSnapshot) {
    v.velocityY > 0.0
  }

  predicate IsScrollingDown(v: ScrollSnapshot) {
    v.velocityY < 0.0
  }

  predicate IsScrolling(v: ScrollSnapshot) {
    IsScrollingUp(v) || IsScrollingDown(v)
  }

  /** The raw values of the flags and of the two groups. */
  lemma RawValues()
    ensures BouncingTop.rawValue == Pow2(0) && BouncingBottom.rawValue == Pow2(1)
    ensures ScrollingUp.rawValue == Pow2(2) && ScrollingDown.rawValue == Pow2(3)
    ensures Unknown.rawValue == Pow2(10)
    ensures Bouncing.rawValue == 3 && Scrolling.rawValue == 12
  {
    assert Pow2(10) == 1024 by {
      assert Pow2(5) == 32;
      PowAdd(5, 5);
    }
    GroupBits();
    forall i: nat ensures Bit(Bouncing.rawValue, i) == Bit(3, i) && Bit(Scrolling.rawValue, i) == Bit(12, i) {
      if i > 3 {
        assert Bit(3, i) == Bit(0, i - 2);
        assert Bit(12, i) == Bit(6, i - 1) == Bit(3, i - 2) == Bit(1, i - 3) == Bit(0, i - 4);
        ZeroHasNoBits(i - 2);
        ZeroHasNoBits(i - 4);
      }
    }
    SameBitsSameValue(Bouncing.rawValue, 3);
    SameBitsSameValue(Scrolling.rawValue, 12);
  }

  /** The bits of the two groups: those of their members. */
  lemma GroupBits()
    ensures forall i: nat :: Bit(Bouncing.rawValue, i) <==> i == 0 || i == 1
    ensures forall i: nat :: Bit(Scrolling.rawValue, i) <==> i == 2 || i == 3
  {
    SingleBitValues();
    var bs := [BouncingTop, BouncingBottom];
    var ss := [ScrollingUp, ScrollingDown];
    forall i: nat
      ensures Bit(Bouncing.rawValue, i) <==> i == 0 || i == 1
      ensures Bit(Scrolling.rawValue, i) <==> i == 2 || i == 3
    {
      assert (exists j :: 0 <= j < |bs| && Bit(bs[j].rawValue, i)) <==> Bit(bs[0].rawValue, i) || Bit(bs[1].rawValue, i);
      assert (exists j :: 0 <= j < |ss| && Bit(ss[j].rawValue, i)) <==> Bit(ss[0].rawValue, i) || Bit(ss[1].rawValue, i);
    }
  }

  /** Each outcome has exactly one bit: BouncingTop bit 0, …, ScrollingDown bit 3, Unknown bit 10. */
  lemma SingleBitValues()
    ensures forall i: nat :: Bit(BouncingTop.rawValue, i) <==> i == 0
    ensures forall i: nat :: Bit(BouncingBottom.rawValue, i) <==> i == 1
    ensures forall i: nat :: Bit(ScrollingUp.rawValue, i) <==> i == 2
    ensures forall i: nat :: Bit(ScrollingDown.rawValue, i) <==> i == 3
    ensures forall i: nat :: Bit(Unknown.rawValue, i) <==> i == 10
  {
    assert Pow2(10) == 1024 by {
      assert Pow2(5) == 32;
      PowAdd(5, 5);
    }
    forall i: nat
      ensures Bit(1, i) <==> i == 0
      ensures Bit(2, i) <==> i == 1
      ensures Bit(4, i) <==> i == 2
      ensures Bit(8, i) <==> i == 3
      ensures Bit(1024, i) <==> i == 10
    {
      PowerBit(0, i);
      PowerBit(1, i);
      PowerBit(2, i);
      PowerBit(3, i);
      PowerBit(10, i);
    }
  }

  /** The outcomes are single, pairwise disjoint flags, so each one contains
      exactly itself among them and is told apart by its raw value. */
  lemma OutcomesDisjoint()
    ensures forall j, k :: 0 <= j < |Outcomes| && 0 <= k < |Outcomes| ==>
      (Contains(Outcomes[j], Outcomes[k]) <==> j == k)
    ensures forall j, k :: 0 <= j < k < |Outcomes| ==>
      Intersection(Outcomes[j], Outcomes[k]) == Empty
  {
    SingleBitValues();
    var bitOf := [0, 1, 2, 3, 10];
    forall j, k | 0 <= j < |Outcomes| && 0 <= k < |Outcomes|
      ensures Contains(Outcomes[j], Outcomes[k]) <==> j == k
      ensures j != k ==> Intersection(Outcomes[j], Outcomes[k]) == Empty
    {
      assert forall i: nat :: Bit(Outcomes[j].rawValue, i) <==> i == bitOf[j];
      assert forall i: nat :: Bit(Outcomes[k].rawValue, i) <==> i == bitOf[k];
      var meet := Intersection(Outcomes[j], Outcomes[k]);
      if j == k {
        assert forall i: nat :: Bit(meet.rawValue, i) == Bit(Outcomes[k].rawValue, i);
        SameBitsSameValue(meet.rawValue, Outcomes[k].rawValue);
      } else {
        assert !Bit(meet.rawValue, bitOf[k]);
        assert forall i: nat :: Bit(meet.rawValue, i) == Bit(0, i) by {
          forall i: nat ensures Bit(meet.rawValue, i) == Bit(0, i) {
            ZeroHasNoBits(i);
          }
        }
        SameBitsSameValue(meet.rawValue, 0);
      }
    }
  }

  /** `bouncing` is the union of the two edge flags and `scrolling` that of the
      two directions; the groups share no flag and neither holds `Unknown`. */
  lemma GroupsAreUnions()
    ensures Bouncing == Union(BouncingTop, BouncingBottom)
    ensures Scrolling == Union(ScrollingUp, ScrollingDown)
    ensures Intersection(Bouncing, Scrolling) == Empty
    ensures !Contains(Bouncing, Unknown) && !Contains(Scrolling, Unknown)
  {
    GroupBits();
    SingleBitValues();
    var b := Union(BouncingTop, BouncingBottom);
    SameBitsSameValue(b.rawValue, Bouncing.rawValue);
    var s := Union(ScrollingUp, ScrollingDown);
    SameBitsSameValue(s.rawValue, Scrolling.rawValue);
    var meet := Intersection(Bouncing, Scrolling);
    forall i: nat ensures Bit(meet.rawValue, i) == Bit(0, i) {
      ZeroHasNoBits(i);
    }
    SameBitsSameValue(meet.rawValue, 0);
    assert !Bit(Intersection(Bouncing, Unknown).rawValue, 10);
    assert !Bit(Intersection(Scrolling, Unknown).rawValue, 10);
  }

  /** Which outcomes each group contains: `Bouncing` exactly the two edges,
      `Scrolling` exactly the two directions. */
  lemma GroupMembers(x: State)
    requires x in Outcomes
    ensures Contains(Bouncing, x) <==> x == BouncingTop || x == BouncingBottom
    ensures Contains(Scrolling, x) <==> x == ScrollingUp || x == ScrollingDown
  {
    SingleBitValues();
    GroupBits();
    var bitOf := [0, 1, 2, 3, 10];
    var j :| 0 <= j < |Outcomes| && Outcomes[j] == x;
    assert forall i: nat :: Bit(x.rawValue, i) <==> i == bitOf[j];
    var mb := Intersection(Bouncing, x);
    var ms := Intersection(Scrolling, x);
    if j < 2 {
      assert forall i: nat :: Bit(mb.rawValue, i) == Bit(x.rawValue, i);
      SameBitsSameValue(mb.rawValue, x.rawValue);
    } else {
      assert !Bit(mb.rawValue, bitOf[j]);
    }
    if 2 <= j < 4 {
      assert forall i: nat :: Bit(ms.rawValue, i) == Bit(x.rawValue, i);
      SameBitsSameValue(ms.rawValue, x.rawValue);
    } else {
      assert !Bit(ms.rawValue, bitOf[j]);
    }
  }

  /** `state`: the first of bouncing top, bouncing bottom, scrolling up and
      scrolling down that holds, else `Unknown`. */
  function StateOf(v: ScrollSnapshot): (r: State)
    ensures r in Outcomes && r != Bouncing && r != Scrolling
    ensures r == Unknown <==> !IsBouncing(v) && !IsScrolling(v)
    ensures Contains(Bouncing, r) <==> IsBouncing(v)
    ensures Contains(Scrolling, r) <==> !IsBouncing(v) && IsScrolling(v)
  {
    RawValues();
    var r :=
      if IsBouncingTop(v) then BouncingTop
      else if IsBouncingBottom(v) then BouncingBottom
      else if IsScrollingUp(v) then ScrollingUp
      else if IsScrollingDown(v) then ScrollingDown
      else Unknown;
    GroupMembers(r);
    r
  }

  /** The priority chain, outcome by outcome, in both directions: bouncing top
      wins over everything, bouncing bottom over the directions, up over down. */
  lemma StatePriority(v: ScrollSnapshot)
    ensures StateOf(v) == BouncingTop <==> IsBouncingTop(v)
    ensures StateOf(v) == BouncingBottom <==> !IsBouncingTop(v) && IsBouncingBottom(v)
    ensures StateOf(v) == ScrollingUp <==> !IsBouncing(v) && IsScrollingUp(v)
    ensures StateOf(v) == ScrollingDown <==> !IsBouncing(v) && IsScrollingDown(v)
    ensures StateOf(v) == Unknown <==> !IsBouncing(v) && !IsScrolling(v)
  {
    OutcomesDisjoint();
    assert Outcomes[0] != Outcomes[1] && Outcomes[0] != Outcomes[2] && Outcomes[0] != Outcomes[3];
    assert Outcomes[0] != Outcomes[4] && Outcomes[1] != Outcomes[2] && Outcomes[1] != Outcomes[3];
    assert Outcomes[1] != Outcomes[4] && Outcomes[2] != Outcomes[3] && Outcomes[2] != Outcomes[4];
    assert Outcomes[3] != Outcomes[4];
  }

  /** The two edge flags hold together exactly when the offset lies between the
      bottom limit and the negated top inset; when the bottom limit is at most
      the negated top inset, every offset bounces at one edge or the other. */
  lemma BothEdges(v: ScrollSnapshot)
    ensures IsBouncingTop(v) && IsBouncingBottom(v) <==> OffsetBottomLimit(v) <= v.offsetY <= -v.insetTop
    ensures OffsetBottomLimit(v) <= -v.insetTop ==> IsBouncing(v)
    ensures OffsetBottomLimit(v) > -v.insetTop ==> !(IsBouncingTop(v) && IsBouncingBottom(v))
  {
  }

  /** Both edge comparisons are inclusive: a view resting exactly at its top
      position (offset equal to the negated top inset) reports bouncing top,
      and an offset exactly at the bottom limit is bouncing at the bottom, and
      reported so unless the top edge also holds. */
  lemma InclusiveEdges(v: ScrollSnapshot)
    ensures v.offsetY == -v.insetTop ==> StateOf(v) == BouncingTop
    ensures v.offsetY == OffsetBottomLimit(v) ==> IsBouncingBottom(v)
    ensures v.offsetY == OffsetBottomLimit(v) && v.offsetY > -v.insetTop ==> StateOf(v) == BouncingBottom
  {
    StatePriority(v);
  }

  /** Both edges at once, with the state reporting the top edge. */
  lemma BothEdgesExample()
    ensures var v := ScrollSnapshot(-10.0, 0.0, 300.0, 600.0, 0.0);
      IsBouncingTop(v) && IsBouncingBottom(v) && StateOf(v) == BouncingTop
  {
    StatePriority(ScrollSnapshot(-10.0, 0.0, 300.0, 600.0, 0.0));
  }

  /** The directions exclude each other, and the gesture is scrolling exactly
      when the vertical velocity is nonzero. */
  lemma Directions(v: ScrollSnapshot)
    ensures !(IsScrollingUp(v) && IsScrollingDown(v))
    ensures IsScrolling(v) <==> v.velocityY != 0.0
    ensures v.velocityY == 0.0 ==> !IsScrollingUp(v) && !IsScrollingDown(v)
  {
  }

  /** Overscrolled at the top: offset -10 with top inset 5. */
  lemma ScenarioTop()
    ensures var v := ScrollSnapshot(-10.0, 5.0, 1000.0, 600.0, 0.0);
      IsBouncingTop(v) && StateOf(v) == BouncingTop
  {
    StatePriority(ScrollSnapshot(-10.0, 5.0, 1000.0, 600.0, 0.0));
  }

  /** Overscrolled at the bottom: offset 450 past the limit 1000 - 600 = 400. */
  lemma ScenarioBottom()
    ensures var v := ScrollSnapshot(450.0, 0.0, 1000.0, 600.0, 0.0);
      OffsetBottomLimit(v) == 400.0 && IsBouncingBottom(v) && StateOf(v) == BouncingBottom
  {
    StatePriority(ScrollSnapshot(450.0, 0.0, 1000.0, 600.0, 0.0));
  }

  /** Within bounds with positive velocity: scrolling up. */
  lemma ScenarioUp()
    ensures StateOf(ScrollSnapshot(100.0, 0.0, 1000.0, 600.0, 50.0)) == ScrollingUp
  {
    StatePriority(ScrollSnapshot(100.0, 0.0, 1000.0, 600.0, 50.0));
  }

  /** Within bounds and at rest: unknown. */
  lemma ScenarioRest()
    ensures StateOf(ScrollSnapshot(100.0, 0.0, 1000.0, 600.0, 0.0)) == Unknown
  {
    StatePriority(ScrollSnapshot(100.0, 0.0, 1000.0, 600.0, 0.0));
  }

  /** Union does not depend on the order of its operands, and contains both. */
  lemma UnionContainsOperands(a: State, b: State)
    ensures Union(a, b) == Union(b, a)
    ensures Contains(Union(a, b), a) && Contains(Union(a, b), b)
  {
    OrCommutes(a.rawValue, b.rawValue);
    OrContainsOperands(a.rawValue, b.rawValue);
  }
}
