/** Binary search in a file of fixed-size records, sorted, possibly with duplicates. */
module SortedFiles {

  /** A record compared with what is looked for: negative, zero or positive. */
  ghost predicate Sorted(file: seq<int>) {
    forall i, j :: 0 <= i < j < |file| ==> (file[j] < 0 ==> file[i] < 0) && (file[j] == 0 ==> file[i] <= 0)
  }

  /** The places of the matching records, in file order. */
  ghost function Matches(file: seq<int>): seq<nat> {
    MatchesFrom(file, 0)
  }

  ghost function MatchesFrom(file: seq<int>, i: nat): seq<nat>
    requires i <= |file|
    decreases |file| - i
  {
    if i == |file| then [] else (if file[i] == 0 then [i] else []) + MatchesFrom(file, i + 1)
  }

  lemma {:induction false} NoMatchesBefore(file: seq<int>, i: nat, j: nat)
    requires i <= j <= |file| && forall k :: i <= k < j ==> file[k] != 0
    ensures MatchesFrom(file, i) == MatchesFrom(file, j)
    decreases j - i
  {
    if i < j {
      NoMatchesBefore(file, i + 1, j);
    }
  }

  /** Reading a record: there is none before the file or past its end. */
  datatype Record = NoRecord | Record(order: int)

  function ReadAt(file: seq<int>, k: int): Record {
    if 0 <= k < |file| then Record(file[k]) else NoRecord
  }

  /** What the callback was shown is what it should be: a run of the matches from the first one on, cut
      short only by the callback itself. */
  ghost predicate Shown(file: seq<int>, visits: seq<nat>, goOn: seq<nat> -> bool) {
    && visits <= Matches(file)
    && (visits == Matches(file) || (visits != [] && !goOn(visits)))
    && forall i :: 1 <= i < |visits| ==> goOn(visits[..i])
  }

  /** C's division by two, towards zero. */
  function Half(x: int): int {
    if x >= 0 then x / 2 else -((-x) / 2)
  }

  /** Consecutive places from `first` on, all of them matching. */
  ghost predicate IsRun(file: seq<int>, first: nat, visits: seq<nat>) {
    first + |visits| <= |file| && forall i :: 0 <= i < |visits| ==> visits[i] == first + i && file[visits[i]] == 0
  }

  lemma {:induction false} RunIsPrefix(file: seq<int>, first: nat, visits: seq<nat>)
    requires IsRun(file, first, visits)
    ensures MatchesFrom(file, first) == visits + MatchesFrom(file, first + |visits|)
    decreases |visits|
  {
    if visits != [] {
      assert visits[0] == first;
      forall i | 0 <= i < |visits[1..]| ensures visits[1..][i] == first + 1 + i && file[visits[1..][i]] == 0 {
        assert visits[1..][i] == visits[i + 1];
      }
      RunIsPrefix(file, first + 1, visits[1..]);
      assert visits == [first] + visits[1..];
    }
  }

  /** In a sorted file a run from the first match, up to a record that does not match, is all there is. */
  lemma RunIsShown(file: seq<int>, first: nat, visits: seq<nat>, goOn: seq<nat> -> bool)
    requires Sorted(file) && first < |file| && (forall k :: 0 <= k < first ==> file[k] != 0)
    requires IsRun(file, first, visits) && visits != [] && forall i :: 1 <= i < |visits| ==> goOn(visits[..i])
    requires goOn(visits) ==> first + |visits| == |file| || file[first + |visits|] != 0
    ensures Shown(file, visits, goOn)
    ensures goOn(visits) && first + |visits| == |file|
            <==> visits == Matches(file) && file[|file| - 1] == 0 && goOn(visits)
  {
    NoMatchesBefore(file, 0, first);
    RunIsPrefix(file, first, visits);
    var end := first + |visits|;
    if end < |file| && file[end] != 0 {
      assert visits[|visits| - 1] == end - 1;
      assert forall k :: end <= k < |file| ==> file[k] != 0;
      NoMatchesBefore(file, end, |file|);
    } else if end < |file| {
      assert MatchesFrom(file, end) != [];
    }
    assert file[visits[|visits| - 1]] == 0;
  }

  /** From one match on: the matching records, one after the other, to the callback. */
  method ShowMatches(file: seq<int>, first: nat, goOn: seq<nat> -> bool) returns (ret: int, visits: seq<nat>)
    requires first < |file| && file[first] == 0
    ensures IsRun(file, first, visits) && visits != [] && forall i :: 1 <= i < |visits| ==> goOn(visits[..i])
    ensures goOn(visits) ==> first + |visits| == |file| || file[first + |visits|] != 0
    ensures ret == if goOn(visits) && first + |visits| == |file| then 0 else 1
  {
    visits := [first];
    if !goOn(visits) {
      return 1, visits;
    }
    var pos := first;
    while true
      invariant pos == first + |visits| - 1 && visits != [] && IsRun(file, first, visits) && goOn(visits)
      invariant forall i :: 1 <= i < |visits| ==> goOn(visits[..i])
      decreases |file| - pos
    {
      pos := pos + 1;
      match ReadAt(file, pos) {
        case NoRecord => return 0, visits;
        case Record(order) =>
          if order != 0 {
            return 1, visits;
          }
          ghost var before := visits;
          visits := visits + [pos];
          assert visits[..|before|] == before;
          assert forall i :: 1 <= i < |before| ==> visits[..i] == before[..i];
          if !goOn(visits) {
            return 1, visits;
          }
      }
    }
  }

  /** The search.  The callback sees exactly the matching records, in file order from the first, until it
      has had enough.  Zero means that the search ran off the end of the file or found nothing: also when
      the last match shown is the last record. */
  method BinSearchFromFile(file: seq<int>, goOn: seq<nat> -> bool) returns (ret: int, visits: seq<nat>)
    ensures Sorted(file) ==> Shown(file, visits, goOn)
    ensures Sorted(file) ==>
      (ret == 0 <==> visits == Matches(file) && (visits == [] || (file[|file| - 1] == 0 && goOn(visits))))
    ensures ret == 0 || ret == 1
    ensures forall v :: v in visits ==> v < |file| && file[v] == 0
  {
    var high, low := |file| - 1, 0;
    var mid := Half(high + low);
    while high >= low
      invariant 0 <= low <= |file| && -1 <= high < |file| && mid == Half(high + low)
      invariant Sorted(file) ==> forall k :: 0 <= k < low ==> file[k] < 0
      invariant Sorted(file) ==> (high + 1 < |file| ==> file[high + 1] >= 0)
      invariant Sorted(file) && high + 1 < |file| && file[high + 1] == 0 ==> low <= high && file[high] == 0
      decreases high - low
    {
      var order := file[mid];
      if order == 0 {
        var previous := ReadAt(file, mid - 1);
        if previous == NoRecord || previous.order < 0 {
          ret, visits := ShowMatches(file, mid, goOn);
          if Sorted(file) {
            RunIsShown(file, mid, visits, goOn);
          }
          return;
        } else if previous.order == 0 {
          high := mid - 1;
        } else {
          return 0, [];
        }
      } else if order > 0 {
        high := mid - 1;
      } else {
        low := mid + 1;
      }
      mid := Half(high + low);
    }
    if Sorted(file) {
      NoMatchesBefore(file, 0, |file|);
    }
    return 0, [];
  }

  /** A file of one record, which matches: it is shown, and the search says it found nothing. */
  method LastRecordMatches() returns (ret: int, visits: seq<nat>)
    ensures ret == 0 && visits == [0]
  {
    ret, visits := BinSearchFromFile([0], _ => true);
    assert MatchesFrom([0], 0) == [0] + MatchesFrom([0], 1);
    assert Shown([0], visits, _ => true);
  }
}
