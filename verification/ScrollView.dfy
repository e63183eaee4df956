// Vertical scrolling state (internal/tui/scroll_view.go): the scroll position, the
// sizes of the last layout, and whether the view follows the end of its content.

module ScrollViews {
  import opened Options

  datatype ScrollState = ScrollState(
    top: int, contentHeight: nat, viewportHeight: nat,
    followEnd: bool, followingEnd: bool, followSuppressed: bool)
  {
    function MaxTop(): nat { Max(0, contentHeight - viewportHeight) }

    /** The position is in range. A view that stopped following on purpose sits at
        the end, and it is not following. */
    predicate Valid() {
      && 0 <= top <= MaxTop()
      && (followSuppressed ==> top == MaxTop() && !followingEnd)
      && (followingEnd ==> followEnd)
    }

    /** Moves to an absolute row. */
    function ScrollTo(row: int, disableFollow: bool): ScrollState {
      var next := Max(0, Min(MaxTop(), row));
      var suppressed := disableFollow && next == MaxTop();
      this.(top := next, followSuppressed := suppressed,
            followingEnd := !suppressed && followEnd && next == MaxTop())
    }

    /** Where a relative move starts: a following view counts as being at the end. */
    function Start(): int { if followingEnd then MaxTop() else top }

    function ScrollBy(lines: int): (ScrollState, int) {
      if lines == 0 then (this, 0)
      else
        var next := Max(0, Min(MaxTop(), Start() + lines));
        (this.(top := next, followingEnd := followEnd && next == MaxTop(), followSuppressed := false),
         lines - (next - Start()))
    }

    /** Records new sizes; a following view keeps to the end unless only the
        viewport shrank. */
    function UpdateLayout(content: int, viewport: int): ScrollState {
      var sized := this.(contentHeight := Max(0, content), viewportHeight := Max(0, viewport));
      var limit := sized.MaxTop();
      var held := followingEnd && sized.viewportHeight < viewportHeight && sized.contentHeight <= contentHeight;
      var next := if followingEnd && !held then limit else Max(0, Min(top, limit));
      var suppressed := followSuppressed && next >= limit;
      sized.(top := next, followSuppressed := suppressed,
             followingEnd := followingEnd || (followEnd && next == limit && !suppressed))
    }
  }

  /** Every operation keeps the state valid, and a relative move reports exactly the
      part of the distance it could not cover. */
  lemma ScrollingKeepsValid(s: ScrollState, row: int, lines: int, disableFollow: bool, content: int, viewport: int)
    requires s.Valid()
    ensures s.ScrollTo(row, disableFollow).Valid()
    ensures var (moved, unconsumed) := s.ScrollBy(lines);
      && moved.Valid()
      && (lines != 0 ==> moved.top == s.Start() + (lines - unconsumed))
      && (unconsumed > 0 ==> moved.top == s.MaxTop()) && (unconsumed < 0 ==> moved.top == 0)
    ensures s.UpdateLayout(content, viewport).Valid()
  {
  }

  /** Content that grows under a following view leaves it at the end; content that
      grows under any other view leaves its position alone. */
  lemma GrowthFollowsOrHolds(s: ScrollState, content: nat)
    requires s.Valid() && content >= s.contentHeight
    ensures var t := s.UpdateLayout(content, s.viewportHeight);
      t.top == if s.followingEnd then t.MaxTop() else s.top
  {
  }

  // A viewport and a content that only grows, layout after layout.
  ghost predicate OnlyGrows(contents: seq<nat>, from: nat) {
    forall i, j :: 0 <= i <= j < |contents| ==> from <= contents[i] <= contents[j]
  }

  function Grown(s: ScrollState, contents: seq<nat>): ScrollState {
    if contents == [] then s
    else Grown(s, contents[..|contents| - 1]).UpdateLayout(contents[|contents| - 1], s.viewportHeight)
  }

  /** The view shows the last row of its content and leaves no row blank that content
      could fill. */
  ghost predicate ShowsTheEnd(s: ScrollState) {
    if s.contentHeight <= s.viewportHeight then s.top == 0 else s.top + s.viewportHeight == s.contentHeight
  }

  // Not following, and not about to: away from the end, or told to stay.
  ghost predicate StaysPut(s: ScrollState) { !s.followingEnd && (s.followSuppressed || !ShowsTheEnd(s)) }

  lemma {:induction false} GrowthOverRuns(s: ScrollState, contents: seq<nat>)
    requires s.Valid() && OnlyGrows(contents, s.contentHeight)
    ensures var t := Grown(s, contents);
      && t.Valid() && t.viewportHeight == s.viewportHeight && t.followEnd == s.followEnd
      && t.contentHeight == (if contents == [] then s.contentHeight else contents[|contents| - 1])
      && (s.followingEnd ==> t.followingEnd && (contents != [] ==> ShowsTheEnd(t)))
      && (StaysPut(s) ==> StaysPut(t) && t.top == s.top)
  {
    if contents != [] {
      GrowthOverRuns(s, contents[..|contents| - 1]);
    }
  }

  /** Moving to a row goes as near to it as the content reaches; moving by some lines
      goes exactly that far unless it meets an end, and reports what is left. */
  lemma MovesGoAsAsked(s: ScrollState, row: int, lines: int, disableFollow: bool)
    requires s.Valid()
    ensures var t := s.ScrollTo(row, disableFollow);
      && (0 <= row && (row + s.viewportHeight <= s.contentHeight || row == 0) ==> t.top == row)
      && (row < 0 ==> t.top == 0)
      && (row + s.viewportHeight > s.contentHeight && row >= 0 ==> ShowsTheEnd(t))
      && t.contentHeight == s.contentHeight && t.viewportHeight == s.viewportHeight
    ensures var (t, rest) := s.ScrollBy(lines);
      && (lines == 0 ==> t == s && rest == 0)
      && (lines != 0 ==> t.top == s.Start() + lines - rest)
      && (lines > 0 ==> 0 <= rest <= lines && (rest > 0 ==> ShowsTheEnd(t)))
      && (lines < 0 ==> lines <= rest <= 0 && (rest < 0 ==> t.top == 0))
      && t.contentHeight == s.contentHeight && t.viewportHeight == s.viewportHeight
  {
  }

  /** Taken to the end, a view that follows it shows the last row however often the
      content grows; taken elsewhere, or told not to follow, it stays where it is. */
  lemma FollowsFromTheEnd(s: ScrollState, row: int, disableFollow: bool, lines: int, contents: seq<nat>)
    requires s.Valid() && s.followEnd && OnlyGrows(contents, s.contentHeight)
    ensures var moved := s.ScrollTo(row, disableFollow);
      var t := Grown(moved, contents);
      if ShowsTheEnd(moved) && !disableFollow then ShowsTheEnd(t) else t.top == moved.top
    ensures lines != 0 ==>
      var moved := s.ScrollBy(lines).0;
      var t := Grown(moved, contents);
      if ShowsTheEnd(moved) then ShowsTheEnd(t) else t.top == moved.top
  {
    GrowthOverRuns(s.ScrollTo(row, disableFollow), contents);
    hide Grown;
    GrowthOverRuns(s.ScrollBy(lines).0, contents);
  }

  /** A following view whose viewport alone shrinks keeps its first row, and goes to
      the end with the next content. */
  lemma ShrinkingHoldsTheTop(s: ScrollState, viewport: nat, content: nat)
    requires s.Valid() && s.followingEnd && viewport < s.viewportHeight && content > s.contentHeight
    ensures var held := s.UpdateLayout(s.contentHeight, viewport);
      held.top == s.top && held.followingEnd && ShowsTheEnd(held.UpdateLayout(content, viewport))
  {
  }

  class ScrollView {
    const followEnd: bool
    var currentScrollTop: int
    var contentHeight: nat
    var viewportHeight: nat
    var followingEnd: bool
    var followSuppressed: bool

    constructor (followEnd: bool)
      ensures State() == ScrollState(0, 0, 0, followEnd, followEnd, false) && State().Valid()
    {
      this.followEnd := followEnd;
      currentScrollTop, contentHeight, viewportHeight := 0, 0, 0;
      followingEnd, followSuppressed := followEnd, false;
    }

    ghost function State(): ScrollState
      reads this
    {
      ScrollState(currentScrollTop, contentHeight, viewportHeight, followEnd, followingEnd, followSuppressed)
    }

    method ScrollTo(scrollTop: int, disableFollow: bool)
      modifies this
      ensures State() == old(State()).ScrollTo(scrollTop, disableFollow)
      ensures old(State().Valid()) ==> State().Valid()
    {
      var maxScrollTop := Max(0, contentHeight - viewportHeight);
      var next := Max(0, Min(maxScrollTop, scrollTop));
      var nextSuppressed := disableFollow && next == maxScrollTop;
      var nextFollowing := !nextSuppressed && followEnd && next == maxScrollTop;
      if next == currentScrollTop && nextFollowing == followingEnd && nextSuppressed == followSuppressed {
        return;
      }
      currentScrollTop := next;
      followingEnd := nextFollowing;
      followSuppressed := nextSuppressed;
    }

    method ScrollBy(lines: int) returns (unconsumed: int)
      modifies this
      ensures (State(), unconsumed) == old(State()).ScrollBy(lines)
      ensures old(State().Valid()) ==> State().Valid()
      ensures old(State().Valid()) && lines != 0 ==> currentScrollTop == old(State().Start()) + (lines - unconsumed)
    {
      if lines == 0 {
        return 0;
      }
      var maxScrollTop := Max(0, contentHeight - viewportHeight);
      var start := currentScrollTop;
      if followingEnd {
        start := maxScrollTop;
      }
      var next := Max(0, Min(maxScrollTop, start + lines));
      var moved := next - start;
      currentScrollTop := next;
      followingEnd := followEnd && next == maxScrollTop;
      followSuppressed := false;
      unconsumed := lines - moved;
    }

    method UpdateLayout(content: int, viewport: int)
      modifies this
      ensures State() == old(State()).UpdateLayout(content, viewport)
      ensures old(State().Valid()) ==> State().Valid()
    {
      var previousContent, previousViewport := contentHeight, viewportHeight;
      contentHeight := Max(0, content);
      viewportHeight := Max(0, viewport);
      var maxScrollTop := Max(0, contentHeight - viewportHeight);
      if followingEnd && viewportHeight < previousViewport && contentHeight <= previousContent {
        currentScrollTop := Max(0, Min(currentScrollTop, maxScrollTop));
      } else if followingEnd {
        currentScrollTop := maxScrollTop;
      } else {
        currentScrollTop := Max(0, Min(currentScrollTop, maxScrollTop));
      }
      if currentScrollTop < maxScrollTop {
        followSuppressed := false;
      }
      if followEnd && currentScrollTop == maxScrollTop && !followSuppressed {
        followingEnd := true;
      }
    }
  }
}
