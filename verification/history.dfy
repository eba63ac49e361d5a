/** The back/forward history of the graphical client (main.py
    `_perform_search`, `_go_back`, `_go_forward`): the list of visited
    locations and the index of the current one, -1 before the first visit. */
module History {
  import opened Wrappers

  datatype History<T> = History(entries: seq<T>, index: int)

  /** The history before the first visit: well formed, with nothing to go
      back or forward to. */
  function Empty<T>(): (h: History<T>)
    ensures h.entries == [] && h.index == -1
    ensures Valid(h) && Back(h).None? && Forward(h).None?
  {
    History([], -1)
  }

  /** The index is -1 exactly when nothing was visited, and otherwise names
      an entry. */
  predicate Valid<T>(h: History<T>) {
    -1 <= h.index < |h.entries| && (h.index == -1 <==> |h.entries| == 0)
  }

  /** Visiting a location: below the tip, the entries after the current one
      are dropped first; then the location is appended and becomes current. */
  function Push<T>(h: History<T>, location: T): (r: History<T>)
    requires Valid(h)
    ensures Valid(r) && 0 <= r.index == |r.entries| - 1 && r.entries[r.index] == location
    ensures r.entries == h.entries[..h.index + 1] + [location]
  {
    var kept := if h.index < |h.entries| - 1 then h.entries[..h.index + 1] else h.entries;
    History(kept + [location], |kept|)
  }

  /** The back button: one entry back, when there is one before the current;
      the location to show again is the new current entry. */
  function Back<T>(h: History<T>): (r: Option<History<T>>)
    requires Valid(h)
    ensures r.Some? <==> h.index > 0
    ensures r.Some? ==> Valid(r.value) && r.value.entries == h.entries && r.value.index == h.index - 1
  {
    if h.index > 0 then Some(h.(index := h.index - 1)) else None
  }

  /** The forward button: one entry forward, when there is one after the
      current. */
  function Forward<T>(h: History<T>): (r: Option<History<T>>)
    requires Valid(h)
    ensures r.Some? <==> h.index < |h.entries| - 1
    ensures r.Some? ==> Valid(r.value) && r.value.entries == h.entries && r.value.index == h.index + 1
  {
    if h.index < |h.entries| - 1 then Some(h.(index := h.index + 1)) else None
  }

  /** The location currently shown. */
  function Current<T>(h: History<T>): Option<T>
    requires Valid(h)
  {
    if h.index == -1 then None else Some(h.entries[h.index])
  }

  /** Going back and then forward returns to where one was. */
  lemma BackThenForward<T>(h: History<T>)
    requires Valid(h) && Back(h).Some?
    ensures Forward(Back(h).value) == Some(h)
  {
  }

  /** Going forward and then back returns to where one was. */
  lemma ForwardThenBack<T>(h: History<T>)
    requires Valid(h) && Forward(h).Some?
    ensures Back(Forward(h).value) == Some(h)
  {
  }

  /** A visit keeps the entries up to the current one, and leaves nothing to
      go forward to. */
  lemma PushKeepsPast<T>(h: History<T>, location: T)
    requires Valid(h)
    ensures var r := Push(h, location);
      && |r.entries| == h.index + 2
      && (forall i :: 0 <= i <= h.index ==> r.entries[i] == h.entries[i])
      && Forward(r).None?
      && (h.index >= 0 ==> Back(r) == Some(History(h.entries[..h.index + 1] + [location], h.index)))
  {
  }

  /** Visiting after going back forgets the entry one went back from: the
      entries become the earlier ones plus the new location. */
  lemma PushAfterBackDropsForward<T>(h: History<T>, location: T)
    requires Valid(h) && Back(h).Some?
    ensures var r := Push(Back(h).value, location);
      r.entries == h.entries[..h.index] + [location] && r.index == h.index
  {
  }

  /** The user's actions on the history. */
  datatype Step<T> = Visit(location: T) | GoBack | GoForward

  /** A session: each action in turn; a back or forward with nowhere to go
      changes nothing. */
  function Run<T>(h: History<T>, steps: seq<Step<T>>): (r: History<T>)
    requires Valid(h)
    ensures Valid(r)
    decreases |steps|
  {
    if |steps| == 0 then h
    else
      var next := match steps[0]
        case Visit(x) => Push(h, x)
        case GoBack => Back(h).GetOr(h)
        case GoForward => Forward(h).GetOr(h)
      ;
      Run(next, steps[1..])
  }

  /** The number of visits in a session. */
  function Visits<T>(steps: seq<Step<T>>): nat {
    if |steps| == 0 then 0 else (if steps[0].Visit? then 1 else 0) + Visits(steps[1..])
  }

  /** Back and forward never add entries: a session's history holds at most
      one entry per visit besides those it started with. */
  lemma {:induction false} RunBounded<T>(h: History<T>, steps: seq<Step<T>>)
    requires Valid(h)
    ensures |Run(h, steps).entries| <= |h.entries| + Visits(steps)
    decreases |steps|
  {
    if |steps| > 0 {
      var next := match steps[0]
        case Visit(x) => Push(h, x)
        case GoBack => Back(h).GetOr(h)
        case GoForward => Forward(h).GetOr(h)
      ;
      RunBounded(next, steps[1..]);
    }
  }

  /** A session of back and forward presses only moves the index: the
      entries stay as they were. */
  lemma {:induction false} MovesKeepEntries<T>(h: History<T>, steps: seq<Step<T>>)
    requires Valid(h)
    requires forall i :: 0 <= i < |steps| ==> !steps[i].Visit?
    ensures Run(h, steps).entries == h.entries
    decreases |steps|
  {
    if |steps| > 0 {
      var next := if steps[0].GoBack? then Back(h).GetOr(h) else Forward(h).GetOr(h);
      MovesKeepEntries(next, steps[1..]);
    }
  }

  /** The first visit from the empty history shows that location. */
  lemma FirstVisit<T>(location: T)
    ensures Push(Empty<T>(), location) == History([location], 0)
    ensures Current(Push(Empty<T>(), location)) == Some(location)
  {
  }
}
