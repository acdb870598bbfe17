/**
 * The length check the correction call applies to a parsed reply
 * (src/modules/ai/validators/correction-validator.service.ts): a reply is
 * rejected when some correction, split on single spaces, has more segments
 * than the configured maximum.
 */
module CorrectionValidator {
  import opened Text
  import opened Types
  import opened Wrappers

  /** `correction.split(' ').length`. */
  function WordCount(s: string): (n: nat)
    ensures n == CountChar(s, ' ') + 1
  {
    SpaceSplitCount(s);
    |Split(Space, s)|
  }

  /** `hasLongCorrections`: some correction's word count exceeds `maxWords`. */
  predicate HasLongCorrections(corrections: seq<Correction>, maxWords: int) {
    exists i :: 0 <= i < |corrections| && WordCount(corrections[i].correction) > maxWords
  }

  /** The same test as a left-to-right scan, the way `some` runs it. */
  function FirstLong(corrections: seq<Correction>, maxWords: int): (r: Option<nat>)
    ensures r.Some? ==> r.value < |corrections| && WordCount(corrections[r.value].correction) > maxWords
    ensures r.Some? ==> forall i :: 0 <= i < r.value ==> WordCount(corrections[i].correction) <= maxWords
    ensures r.None? ==> forall i :: 0 <= i < |corrections| ==> WordCount(corrections[i].correction) <= maxWords
    decreases |corrections|
  {
    if corrections == [] then None
    else if WordCount(corrections[0].correction) > maxWords then Some(0)
    else
      match FirstLong(corrections[1..], maxWords)
      case None => None
      case Some(k) => Some(k + 1)
  }

  /** The scan finds a long correction exactly when the predicate holds. */
  lemma FirstLongDecides(corrections: seq<Correction>, maxWords: int)
    ensures FirstLong(corrections, maxWords).Some? <==> HasLongCorrections(corrections, maxWords)
  {
  }

  /** Adding corrections to a reply never turns a rejected reply into an accepted one. */
  lemma LongPersists(corrections: seq<Correction>, more: seq<Correction>, maxWords: int)
    requires HasLongCorrections(corrections, maxWords)
    ensures HasLongCorrections(corrections + more, maxWords)
    ensures HasLongCorrections(more + corrections, maxWords)
  {
    var i :| 0 <= i < |corrections| && WordCount(corrections[i].correction) > maxWords;
    assert (corrections + more)[i] == corrections[i];
    assert (more + corrections)[|more| + i] == corrections[i];
  }

  /** A reply whose corrections contain no space is accepted whenever at least one word is allowed. */
  lemma SingleWordsAccepted(corrections: seq<Correction>, maxWords: int)
    requires maxWords >= 1
    requires forall i :: 0 <= i < |corrections| ==> ' ' !in corrections[i].correction
    ensures !HasLongCorrections(corrections, maxWords)
  {
    forall i | 0 <= i < |corrections|
      ensures WordCount(corrections[i].correction) == 1
    {
      CountCharAbsent(corrections[i].correction, ' ');
    }
  }

  /** The verdict depends only on which corrections the reply holds, not on
      their order: a reply containing every correction of a rejected one
      (as a multiset) is rejected too. */
  lemma LongMonotone(corrections: seq<Correction>, others: seq<Correction>, maxWords: int)
    requires multiset(corrections) <= multiset(others)
    requires HasLongCorrections(corrections, maxWords)
    ensures HasLongCorrections(others, maxWords)
  {
    var i :| 0 <= i < |corrections| && WordCount(corrections[i].correction) > maxWords;
    assert corrections[i] in multiset(corrections);
    assert corrections[i] in multiset(others);
    var j :| 0 <= j < |others| && others[j] == corrections[i];
  }

  /** A reply is rejected exactly when some correction holds at least
      `maxWords` spaces. */
  lemma LongBySpaces(corrections: seq<Correction>, maxWords: int)
    ensures HasLongCorrections(corrections, maxWords)
      <==> exists i :: 0 <= i < |corrections| && CountChar(corrections[i].correction, ' ') >= maxWords
  {
  }
}
