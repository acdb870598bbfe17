/**
 * The process-wide token accumulator (src/modules/ai/token-usage.service.ts):
 * three running totals, added to componentwise after every engine call, read
 * out as a copy, and reset to zero.
 */
module TokenUsageAccounting {
  import opened Types

  /** Componentwise sum of two usage records. */
  function Plus(x: TokenUsage, y: TokenUsage): TokenUsage {
    TokenUsage(x.promptTokens + y.promptTokens,
               x.completionTokens + y.completionTokens,
               x.totalTokens + y.totalTokens)
  }

  /** The totals after adding `us` in order to zero. */
  function SumUsage(us: seq<TokenUsage>): TokenUsage
    decreases |us|
  {
    if us == [] then ZeroUsage else Plus(SumUsage(us[..|us| - 1]), us[|us| - 1])
  }

  /** A record whose total is the sum of its prompt and completion counts,
      as the engine reports it. */
  predicate Consistent(u: TokenUsage) {
    u.totalTokens == u.promptTokens + u.completionTokens
  }

  lemma PlusZero(x: TokenUsage)
    ensures Plus(x, ZeroUsage) == x
  {
  }

  /** Adding a batch of records is adding their sum. */
  lemma {:induction false} SumUsageAppend(a: seq<TokenUsage>, b: seq<TokenUsage>)
    ensures SumUsage(a + b) == Plus(SumUsage(a), SumUsage(b))
    decreases |b|
  {
    if b == [] {
      assert a + b == a;
      PlusZero(SumUsage(a));
    } else {
      var init, last := b[..|b| - 1], b[|b| - 1];
      assert SumUsage(a + b) == Plus(SumUsage(a + init), last) by {
        assert (a + b)[..|a + b| - 1] == a + init;
        assert (a + b)[|a + b| - 1] == last;
      }
      SumUsageAppend(a, init);
    }
  }

  lemma SumUsageSnoc(a: seq<TokenUsage>, x: TokenUsage)
    ensures SumUsage(a + [x]) == Plus(SumUsage(a), x)
  {
    assert (a + [x])[..|a|] == a;
  }

  lemma SplitAround(b: seq<TokenUsage>, j: nat)
    requires j < |b|
    ensures b == (b[..j] + [b[j]]) + b[j + 1..]
  {
  }

  lemma PlusSwap(x: TokenUsage, y: TokenUsage, z: TokenUsage)
    ensures Plus(Plus(x, y), z) == Plus(Plus(x, z), y)
  {
  }

  /** Removing the record at `j` takes exactly that record off the totals. */
  lemma SumUsageRemove(b: seq<TokenUsage>, j: nat)
    requires j < |b|
    ensures SumUsage(b) == Plus(SumUsage(b[..j] + b[j + 1..]), b[j])
  {
    var pre, x, post := b[..j], b[j], b[j + 1..];
    SplitAround(b, j);
    SumUsageAppend(pre + [x], post);
    SumUsageSnoc(pre, x);
    SumUsageAppend(pre, post);
    PlusSwap(SumUsage(pre), x, SumUsage(post));
  }

  /** Removing the element at `j` removes one occurrence of it from the multiset. */
  lemma MultisetRemove(b: seq<TokenUsage>, j: nat)
    requires j < |b|
    ensures multiset(b) == multiset(b[..j] + b[j + 1..]) + multiset{b[j]}
  {
    assert b == b[..j] + [b[j]] + b[j + 1..];
  }

  /** The totals do not depend on the order in which the records were added,
      so chunks that finish in any order give the same totals. */
  lemma {:induction false} SumUsageOrder(a: seq<TokenUsage>, b: seq<TokenUsage>)
    requires multiset(a) == multiset(b)
    ensures SumUsage(a) == SumUsage(b)
    decreases |a|
  {
    if a != [] {
      var init, last := a[..|a| - 1], a[|a| - 1];
      assert a == init + [last];
      assert multiset(a) == multiset(init) + multiset{last};
      assert last in multiset(b);
      var j :| 0 <= j < |b| && b[j] == last;
      var rest := b[..j] + b[j + 1..];
      MultisetRemove(b, j);
      assert multiset(init) == multiset(rest) by {
        forall x: TokenUsage
          ensures multiset(init)[x] == multiset(rest)[x]
        {
          assert (multiset(init) + multiset{last})[x] == (multiset(rest) + multiset{last})[x];
        }
      }
      SumUsageOrder(init, rest);
      SumUsageRemove(b, j);
    }
  }

  /** Totals built from consistent records are consistent. */
  lemma {:induction false} SumConsistent(us: seq<TokenUsage>)
    requires forall i :: 0 <= i < |us| ==> Consistent(us[i])
    ensures Consistent(SumUsage(us))
    decreases |us|
  {
    if us != [] {
      SumConsistent(us[..|us| - 1]);
    }
  }

  /** `TokenUsageService`. `added` records, as ghost state, every record added
      since construction or the last reset. */
  class TokenUsageService {
    var totalUsage: TokenUsage
    ghost var added: seq<TokenUsage>

    ghost predicate Valid()
      reads this
    {
      totalUsage == SumUsage(added)
    }

    constructor ()
      ensures Valid()
      ensures totalUsage == ZeroUsage && added == []
    {
      totalUsage := ZeroUsage;
      added := [];
    }

    /** `addUsage`: each field grows by the matching field of `usage`. */
    method AddUsage(usage: TokenUsage)
      requires Valid()
      modifies this
      ensures Valid()
      ensures added == old(added) + [usage]
      ensures totalUsage.promptTokens == old(totalUsage.promptTokens) + usage.promptTokens
      ensures totalUsage.completionTokens == old(totalUsage.completionTokens) + usage.completionTokens
      ensures totalUsage.totalTokens == old(totalUsage.totalTokens) + usage.totalTokens
      ensures Consistent(old(totalUsage)) && Consistent(usage) ==> Consistent(totalUsage)
    {
      totalUsage := TokenUsage(totalUsage.promptTokens + usage.promptTokens,
                               totalUsage.completionTokens + usage.completionTokens,
                               totalUsage.totalTokens + usage.totalTokens);
      added := added + [usage];
      assert added[..|added| - 1] == old(added);
    }

    /** `getTotalUsage`: a copy of the totals, i.e. the sum of what was added. */
    method GetTotalUsage() returns (usage: TokenUsage)
      requires Valid()
      ensures usage == totalUsage
      ensures usage == SumUsage(added)
    {
      usage := totalUsage;
    }

    /** `reset`: all three totals back to zero. */
    method Reset()
      modifies this
      ensures Valid()
      ensures totalUsage == ZeroUsage && added == []
    {
      totalUsage := ZeroUsage;
      added := [];
    }
  }
}
