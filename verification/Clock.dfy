/** Events on one clock that does not go back. */
module Clock {

  ghost predicate Ordered<E>(start: int, events: seq<E>, time: E -> int) {
    && (forall i :: 0 <= i < |events| ==> start <= time(events[i]))
    && (forall i, j :: 0 <= i < j < |events| ==> time(events[i]) <= time(events[j]))
  }
}
