# Scroll-state classifier

A model of the scroll-state helper of DeksHelper-ScrollView, an extension on a
scroll view that reports whether the view is overscrolled past its top or
bottom edge ("bouncing"), whether the pan gesture moves the content up or down
("scrolling"), and a single `State` picked by a fixed priority chain:
bouncing top, then bouncing bottom, then scrolling up, then scrolling down,
else `unknown`.

The model is pure, like the source. The view's live geometry and gesture
velocity become a value, `ScrollSnapshot` (vertical content offset, top
content inset, content height, frame height, vertical pan velocity), and each
predicate of the source is a Dafny predicate over it.

`State` is an option set over an unsigned 64-bit raw value. The model keeps
that representation: `State(rawValue)` with `Union` (bitwise or),
`Intersection` (bitwise and) and `Contains` ("intersecting gives back the
member"), and the group constants `Bouncing` and `Scrolling` are built the way
an array literal builds an option set: start empty, union the elements in.
The bitwise operations live in module `OptionBits` (`option_bits.dfy`),
defined digit by digit on natural numbers, with lemmas that say what they do
to every single bit. The classifier is module `ScrollState`
(`scroll_state.dfy`).

The predicates `IsBouncingTop` (`offsetY <= -insetTop`), `IsBouncingBottom`
(`offsetY >= OffsetBottomLimit`, the limit being `contentHeight -
frameHeight`), `IsBouncing`, `IsScrollingUp` (`velocityY > 0`),
`IsScrollingDown` (`velocityY < 0`) and `IsScrolling` are the source's
comparisons as written; the lemmas below state what follows from them.

## Model

| member | source | states |
|---|---|---|
| ScrollState.StateOf | Sources/DeksHelper+ScrollView/DeksHelper_ScrollView.swift:25-37 | the state is always one of bouncing top, bouncing bottom, scrolling up, scrolling down or unknown, never the group `bouncing` or `scrolling`; it is `unknown` iff the view is neither bouncing nor scrolling; the `bouncing` group contains it iff the view is bouncing; the `scrolling` group contains it iff the view is scrolling and not bouncing |
| ScrollState.StatePriority | Sources/DeksHelper+ScrollView/DeksHelper_ScrollView.swift:25-37 | the priority chain in both directions: bouncing top iff the top edge is overscrolled (whatever else holds); bouncing bottom iff the bottom edge is and the top is not; scrolling up iff not bouncing and velocity positive; scrolling down iff not bouncing and velocity negative; unknown iff none of the four holds |
| ScrollState.RawValues | Sources/DeksHelper+ScrollView/DeksHelper_ScrollView.swift:15-22 | the flags are `1 << 0`, `1 << 1`, `1 << 2`, `1 << 3` and `unknown` is `1 << 10`; the groups have raw values 3 and 12 |
| ScrollState.SingleBitValues | Sources/DeksHelper+ScrollView/DeksHelper_ScrollView.swift:15-22 | each of the five outcomes has exactly one bit set: bits 0, 1, 2, 3 and 10 |
| ScrollState.OutcomesDisjoint | Sources/DeksHelper+ScrollView/DeksHelper_ScrollView.swift:15-22 | the five outcomes are pairwise disjoint (empty intersection) and each contains exactly itself among them, so every state result is told apart by its raw value |
| ScrollState.GroupBits | Sources/DeksHelper+ScrollView/DeksHelper_ScrollView.swift:19-20 | `bouncing` has exactly bits 0 and 1, `scrolling` exactly bits 2 and 3 |
| ScrollState.GroupsAreUnions | Sources/DeksHelper+ScrollView/DeksHelper_ScrollView.swift:19-22 | `bouncing` equals the union of bouncing top and bouncing bottom, `scrolling` that of scrolling up and scrolling down; the two groups are disjoint and neither contains `unknown` |
| ScrollState.GroupMembers | Sources/DeksHelper+ScrollView/DeksHelper_ScrollView.swift:19-20 | among the outcomes, `bouncing` contains exactly the two edge flags and `scrolling` exactly the two direction flags |
| ScrollState.Union | Sources/DeksHelper+ScrollView/DeksHelper_ScrollView.swift:19-20 | a bit of the union is set iff it is set in either operand, and the union of two 64-bit raw values is a 64-bit raw value |
| ScrollState.OffsetBottomLimit | Sources/DeksHelper+ScrollView/DeksHelper_ScrollView.swift:64-68 | the bottom limit is `contentHeight - frameHeight`, the smallest offset that counts as bouncing at the bottom (the comparison is inclusive); its consequences are stated by `BothEdges` and `ScenarioBottom` |
| ScrollState.IsBouncingTop | Sources/DeksHelper+ScrollView/DeksHelper_ScrollView.swift:55-58 | overscrolled at the top iff `offsetY <= -insetTop`; what follows is stated by `BothEdges`, `StatePriority` and `ScenarioTop` |
| ScrollState.IsBouncingBottom | Sources/DeksHelper+ScrollView/DeksHelper_ScrollView.swift:60-62 | overscrolled at the bottom iff `offsetY >= OffsetBottomLimit`; what follows is stated by `BothEdges`, `StatePriority` and `ScenarioBottom` |
| ScrollState.IsBouncing | Sources/DeksHelper+ScrollView/DeksHelper_ScrollView.swift:51-53 | bouncing iff bouncing at the top or at the bottom; `BothEdges` shows both can hold at once and when every offset bounces, `StateOf` that the `bouncing` group contains the state exactly then |
| ScrollState.IsScrollingUp | Sources/DeksHelper+ScrollView/DeksHelper_ScrollView.swift:84-87 | scrolling up iff the vertical velocity is `> 0`; `Directions` shows it excludes scrolling down, `StatePriority` where it wins |
| ScrollState.IsScrollingDown | Sources/DeksHelper+ScrollView/DeksHelper_ScrollView.swift:88-91 | scrolling down iff the vertical velocity is `< 0`; `Directions` shows it excludes scrolling up, `StatePriority` where it wins |
| ScrollState.IsScrolling | Sources/DeksHelper+ScrollView/DeksHelper_ScrollView.swift:81-83 | scrolling iff scrolling up or down; `Directions` shows this is exactly a nonzero velocity, `StateOf` that the `scrolling` group contains the state exactly when scrolling and not bouncing |
| ScrollState.Intersection | Sources/DeksHelper+ScrollView/DeksHelper_ScrollView.swift:19-20 | a bit of the intersection is set iff it is set in both operands (the bitwise and behind option-set containment), and the result stays a 64-bit raw value |
| ScrollState.Contains | Sources/DeksHelper+ScrollView/DeksHelper_ScrollView.swift:19-20 | `s` contains `m` (intersecting gives back `m`) iff every bit of `m` is a bit of `s`, proved from `SubsetByBits` |
| ScrollState.FromArrayLiteral | Sources/DeksHelper+ScrollView/DeksHelper_ScrollView.swift:19-20 | the option set written as an array literal has exactly the bits of its elements |
| ScrollState.UnionContainsOperands | Sources/DeksHelper+ScrollView/DeksHelper_ScrollView.swift:19-20 | union does not depend on operand order and contains both operands |
| ScrollState.BothEdges | Sources/DeksHelper+ScrollView/DeksHelper_ScrollView.swift:51-68 | both edge flags hold iff the offset lies between the bottom limit and the negated top inset; when the bottom limit is at most the negated top inset every offset is bouncing; otherwise the two edges never hold together |
| ScrollState.InclusiveEdges | Sources/DeksHelper+ScrollView/DeksHelper_ScrollView.swift:25-62 | both edge comparisons include their boundary: a view resting exactly at its top position (`offsetY == -insetTop`) has state bouncing top, and an offset exactly at the bottom limit is bouncing at the bottom and has state bouncing bottom when the top edge does not hold |
| ScrollState.BothEdgesExample | Sources/DeksHelper+ScrollView/DeksHelper_ScrollView.swift:25-68 | a concrete view bouncing at both edges at once, whose state is bouncing top |
| ScrollState.Directions | Sources/DeksHelper+ScrollView/DeksHelper_ScrollView.swift:81-91 | scrolling up and scrolling down exclude each other; scrolling iff the velocity is nonzero; at zero velocity neither holds |
| ScrollState.ScenarioTop | Sources/DeksHelper+ScrollView/DeksHelper_ScrollView.swift:25-58 | offset -10 with top inset 5 is bouncing top and so is its state |
| ScrollState.ScenarioBottom | Sources/DeksHelper+ScrollView/DeksHelper_ScrollView.swift:25-68 | content 1000 in a 600 frame has bottom limit 400; offset 450 is bouncing bottom and so is its state |
| ScrollState.ScenarioUp | Sources/DeksHelper+ScrollView/DeksHelper_ScrollView.swift:25-37 | within bounds with velocity 50 the state is scrolling up |
| ScrollState.ScenarioRest | Sources/DeksHelper+ScrollView/DeksHelper_ScrollView.swift:25-37 | within bounds at zero velocity the state is unknown |
| OptionBits.OrBit | Sources/DeksHelper+ScrollView/DeksHelper_ScrollView.swift:19-20 | bit i of a bitwise or is set iff it is set in either operand |
| OptionBits.AndBit | Sources/DeksHelper+ScrollView/DeksHelper_ScrollView.swift:19-20 | bit i of a bitwise and is set iff it is set in both operands |
| OptionBits.SameBitsSameValue | Sources/DeksHelper+ScrollView/DeksHelper_ScrollView.swift:9-13 | a raw value is determined by its bits |
| OptionBits.OrBelow | Sources/DeksHelper+ScrollView/DeksHelper_ScrollView.swift:9 | the or of two values below 2^k is below 2^k |
| OptionBits.SubsetByBits | Sources/DeksHelper+ScrollView/DeksHelper_ScrollView.swift:19-20 | option-set containment (`and` gives back the member) holds iff every bit of the member is a bit of the set |
| OptionBits.PowerBit | Sources/DeksHelper+ScrollView/DeksHelper_ScrollView.swift:15-22 | `1 << k` has bit k and no other |

## Left out

- Reading the geometry and velocity from the toolkit (content offset, content inset, content size, frame, and the pan gesture's velocity in the superview, including a missing superview): these are framework calls; the model takes them as a `ScrollSnapshot` value.
- The public wrappers and the private functions they forward to (lines 45-47 and 75-77): they only forward, so each predicate is modelled once. That the private bouncing check calls the public bottom-edge wrapper (line 52), and the unused local at line 56, change nothing.
- Floating-point semantics of the toolkit's scalar type (NaN, infinities, rounding of `contentHeight - frameHeight`): values are `real` and compared exactly.
- Option-set operations other than union, intersection, containment and the array-literal initialiser: the source does not use them.
- The width of `UInt` is taken as 64 bits; on a 32-bit platform it is 32, which changes nothing here since every raw value used is below 2^11.
- Idempotence of repeated reads: every member is a function of its snapshot, so equal snapshots give equal results by construction.
