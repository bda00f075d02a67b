/** `match_users`: pair each source user with the first target user of equal email. */
module Matching {
  import opened Wrappers
  import opened Identity
  import opened Snapshot

  type Match = (User, User)

  /** The position of the first target whose email equals `email` (case-sensitive). */
  function FirstEmailMatch(email: string, targets: seq<User>): (r: Option<nat>)
    ensures r.Some? ==> && r.value < |targets| && targets[r.value].email == email
                        && forall j :: 0 <= j < r.value ==> targets[j].email != email
    ensures r.None? <==> forall j :: 0 <= j < |targets| ==> targets[j].email != email
    decreases |targets|
  {
    if |targets| == 0 then None
    else if targets[0].email == email then Some(0)
    else match FirstEmailMatch(email, targets[1..])
      case None => None
      case Some(k) => Some(k + 1)
  }

  predicate HasMatch(u: User, targets: seq<User>) {
    exists j :: 0 <= j < |targets| && targets[j].email == u.email
  }

  /** The pairs of `match_users` for the given snapshots, source order kept. */
  function MatchUsers(sources: seq<User>, targets: seq<User>): (r: seq<Match>)
    ensures |r| <= |sources|
    ensures |sources| > 0 && HasMatch(sources[0], targets) ==>
              |r| > 0 && r[0].0 == sources[0] && r[0].1 in targets && r[0].1.email == sources[0].email
    decreases |sources|
  {
    if |sources| == 0 then []
    else
      var rest := MatchUsers(sources[1..], targets);
      match FirstEmailMatch(sources[0].email, targets)
      case None => rest
      case Some(j) => [(sources[0], targets[j])] + rest
  }

  /** The positions in `sources` of the users that have a match, in increasing order. */
  ghost function MatchedSources(sources: seq<User>, targets: seq<User>): seq<nat>
    decreases |sources|
  {
    if |sources| == 0 then []
    else
      var shifted := Shift(MatchedSources(sources[1..], targets));
      if HasMatch(sources[0], targets) then [0] + shifted else shifted
  }

  /** Every position moved one place on. */
  function Shift(idx: seq<nat>): (r: seq<nat>)
    ensures |r| == |idx| && forall k :: 0 <= k < |idx| ==> r[k] == idx[k] + 1
  {
    seq(|idx|, k requires 0 <= k < |idx| => idx[k] + 1)
  }

  /** `t` is the earliest user of `targets` whose email is `u`'s. */
  ghost predicate EarliestWithEmail(t: User, u: User, targets: seq<User>) {
    exists j :: && 0 <= j < |targets| && t == targets[j] && targets[j].email == u.email
                && forall j' :: 0 <= j' < j ==> targets[j'].email != u.email
  }

  /** `r` pairs, in order, the sources at positions `idx` with their earliest equal-email
      target; `idx` is strictly increasing and holds exactly the sources that have some match. */
  ghost predicate DescribesMatching(r: seq<Match>, sources: seq<User>, targets: seq<User>, idx: seq<nat>) {
    && SourcesAt(r, sources, idx)
    && ExactlyMatched(idx, sources, targets)
    && forall k :: 0 <= k < |r| ==> EarliestWithEmail(r[k].1, r[k].0, targets)
  }

  /** Each pair has equal emails and its target comes from `targets`. */
  ghost predicate EqualEmailPairs(r: seq<Match>, targets: seq<User>) {
    forall k :: 0 <= k < |r| ==> r[k].0.email == r[k].1.email && r[k].1 in targets
  }

  /** Each pair's target is the earliest target with the source's email. */
  ghost predicate EarliestTargets(r: seq<Match>, targets: seq<User>) {
    forall k :: 0 <= k < |r| ==>
      && FirstEmailMatch(r[k].0.email, targets).Some?
      && r[k].1 == targets[FirstEmailMatch(r[k].0.email, targets).value]
  }

  /** Pair k's source is the user at position idx[k]. */
  ghost predicate SourcesAt(r: seq<Match>, sources: seq<User>, idx: seq<nat>) {
    && |r| == |idx|
    && forall k :: 0 <= k < |idx| ==> idx[k] < |sources| && r[k].0 == sources[idx[k]]
  }

  /** Positions below `n`, strictly increasing. */
  ghost predicate IncreasingBelow(idx: seq<nat>, n: nat) {
    && (forall k :: 0 <= k < |idx| ==> idx[k] < n)
    && (forall k, l :: 0 <= k < l < |idx| ==> idx[k] < idx[l])
  }

  /** `idx` is increasing and holds exactly the positions of the users with a match. */
  ghost predicate ExactlyMatched(idx: seq<nat>, sources: seq<User>, targets: seq<User>) {
    && IncreasingBelow(idx, |sources|)
    && (forall i :: 0 <= i < |sources| ==> (i in idx <==> HasMatch(sources[i], targets)))
  }

  /** Every returned pair has equal emails and a target from the target snapshot, and there are
      no more pairs than source users. */
  lemma {:induction false} MatchUsersPairs(sources: seq<User>, targets: seq<User>)
    ensures |MatchUsers(sources, targets)| <= |sources|
    ensures EqualEmailPairs(MatchUsers(sources, targets), targets)
    decreases |sources|
  {
    if |sources| > 0 {
      MatchUsersPairs(sources[1..], targets);
    }
  }

  /** Every pair's target is the earliest target with the source's email. */
  lemma {:induction false} MatchUsersEarliest(sources: seq<User>, targets: seq<User>)
    ensures EarliestTargets(MatchUsers(sources, targets), targets)
    decreases |sources|
  {
    if |sources| > 0 {
      MatchUsersEarliest(sources[1..], targets);
      var r := MatchUsers(sources, targets);
      var rr := MatchUsers(sources[1..], targets);
      match FirstEmailMatch(sources[0].email, targets)
      case None =>
        assert r == rr;
        forall k | 0 <= k < |r|
          ensures FirstEmailMatch(r[k].0.email, targets).Some?
                  && r[k].1 == targets[FirstEmailMatch(r[k].0.email, targets).value]
        {
          assert r[k] == rr[k];
        }
      case Some(j) =>
        assert r == [(sources[0], targets[j])] + rr;
        forall k | 0 < k < |r|
          ensures FirstEmailMatch(r[k].0.email, targets).Some?
                  && r[k].1 == targets[FirstEmailMatch(r[k].0.email, targets).value]
        {
          assert r[k] == rr[k - 1];
        }
    }
  }

  /** One pair per matched position, whose source is the user at that position. */
  lemma {:induction false} MatchedSourcesPairs(sources: seq<User>, targets: seq<User>)
    ensures SourcesAt(MatchUsers(sources, targets), sources, MatchedSources(sources, targets))
    decreases |sources|
  {
    if |sources| > 0 {
      var tail := sources[1..];
      MatchedSourcesPairs(tail, targets);
      var r := MatchUsers(sources, targets);
      var rr := MatchUsers(tail, targets);
      var shifted := Shift(MatchedSources(tail, targets));
      var idx := MatchedSources(sources, targets);
      var m := FirstEmailMatch(sources[0].email, targets);
      assert m.Some? <==> HasMatch(sources[0], targets);
      forall k | 0 <= k < |shifted| ensures shifted[k] < |sources| && sources[shifted[k]] == rr[k].0 {
        assert sources[shifted[k]] == tail[shifted[k] - 1];
      }
      if m.Some? {
        assert r == [(sources[0], targets[m.value])] + rr;
        assert idx == [0] + shifted;
        forall k | 0 < k < |idx| ensures idx[k] < |sources| && r[k].0 == sources[idx[k]] {
          assert r[k] == rr[k - 1] && idx[k] == shifted[k - 1];
        }
      } else {
        assert r == rr;
      }
    }
  }

  /** The matched positions are in range and increasing. */
  lemma {:induction false} MatchedSourcesIncreasing(sources: seq<User>, targets: seq<User>)
    ensures IncreasingBelow(MatchedSources(sources, targets), |sources|)
    decreases |sources|
  {
    if |sources| > 0 {
      var ri := MatchedSources(sources[1..], targets);
      MatchedSourcesIncreasing(sources[1..], targets);
      var shifted := Shift(ri);
      var idx := MatchedSources(sources, targets);
      if HasMatch(sources[0], targets) {
        assert idx == [0] + shifted;
        forall k, l | 0 <= k < l < |idx| ensures idx[k] < idx[l] {
          if k > 0 {
            assert idx[k] == shifted[k - 1] && idx[l] == shifted[l - 1];
          }
        }
      } else {
        assert idx == shifted;
      }
    }
  }

  /** A position is matched exactly when the user there has some equal-email target. */
  lemma {:induction false} MatchedSourcesMembers(sources: seq<User>, targets: seq<User>)
    ensures forall i :: 0 <= i < |sources| ==>
              (i in MatchedSources(sources, targets) <==> HasMatch(sources[i], targets))
    decreases |sources|
  {
    if |sources| > 0 {
      var tail := sources[1..];
      MatchedSourcesMembers(tail, targets);
      var ri := MatchedSources(tail, targets);
      var shifted := Shift(ri);
      var idx := MatchedSources(sources, targets);
      assert idx == (if HasMatch(sources[0], targets) then [0] else []) + shifted;
      assert 0 !in shifted;
      forall i | 0 < i < |sources|
        ensures i in idx <==> HasMatch(sources[i], targets)
      {
        assert sources[i] == tail[i - 1];
        assert (i - 1) in ri <==> HasMatch(tail[i - 1], targets);
        if (i - 1) in ri {
          var k :| 0 <= k < |ri| && ri[k] == i - 1;
          assert shifted[k] == i;
        }
        assert i in idx <==> i in shifted;
      }
    }
  }

  lemma MatchedSourcesExact(sources: seq<User>, targets: seq<User>)
    ensures ExactlyMatched(MatchedSources(sources, targets), sources, targets)
  {
    MatchedSourcesIncreasing(sources, targets);
    MatchedSourcesMembers(sources, targets);
  }

  /** `match_users` in full: sources in source order, each at most once, exactly those with some
      equal-email target, each paired with the earliest such target. */
  lemma MatchUsersSpec(sources: seq<User>, targets: seq<User>)
    ensures DescribesMatching(MatchUsers(sources, targets), sources, targets, MatchedSources(sources, targets))
  {
    var r := MatchUsers(sources, targets);
    MatchedSourcesPairs(sources, targets);
    MatchedSourcesExact(sources, targets);
    MatchUsersEarliest(sources, targets);
    forall k | 0 <= k < |r| ensures EarliestWithEmail(r[k].1, r[k].0, targets) {
      var j := FirstEmailMatch(r[k].0.email, targets).value;
      assert r[k].1 == targets[j];
    }
  }

  /** Matching a concatenation of source lists matches each part. */
  lemma {:induction false} MatchUsersAppend(a: seq<User>, b: seq<User>, targets: seq<User>)
    ensures MatchUsers(a + b, targets) == MatchUsers(a, targets) + MatchUsers(b, targets)
    decreases |a|
  {
    if |a| > 0 {
      assert (a + b)[1..] == a[1..] + b;
      MatchUsersAppend(a[1..], b, targets);
    } else {
      assert a + b == b;
    }
  }

  /** The nested loop of `match_users`, with its `break` after the first hit. */
  method MatchUsersLoop(sources: seq<User>, targets: seq<User>) returns (matched: seq<Match>)
    ensures matched == MatchUsers(sources, targets)
  {
    matched := [];
    var i := 0;
    while i < |sources|
      invariant 0 <= i <= |sources|
      invariant matched == MatchUsers(sources[..i], targets)
    {
      var u := sources[i];
      var j := 0;
      while j < |targets| && targets[j].email != u.email
        invariant 0 <= j <= |targets|
        invariant forall jj :: 0 <= jj < j ==> targets[jj].email != u.email
      {
        j := j + 1;
      }
      var found := j < |targets|;
      var step := if found then [(u, targets[j])] else [];
      assert MatchUsers([u], targets) == step by {
        assert [u][1..] == [];
        var m := FirstEmailMatch(u.email, targets);
        if found {
          assert m == Some(j);
        } else {
          assert m.None?;
        }
      }
      MatchUsersAppend(sources[..i], [u], targets);
      assert sources[..i + 1] == sources[..i] + [u];
      matched := matched + step;
      i := i + 1;
    }
    assert sources[..i] == sources;
  }

  /** `match_users` over two stores: either snapshot missing raises, otherwise the pairs. */
  function MatchStores(source: Store, target: Store): (r: Result<seq<Match>, Error>)
    ensures r.Success? <==> ReadUsers(source).Success? && ReadUsers(target).Success?
    ensures r.Success? ==> r.value == MatchUsers(ReadUsers(source).value, ReadUsers(target).value)
  {
    var from :- ReadUsers(source);
    var to :- ReadUsers(target);
    Success(MatchUsers(from, to))
  }

  function UserWithEmail(id: string, email: string): User {
    User(id, id, id, email, "", "", "", "", "", "", "", "", "", DefaultCredits, [], id, id)
  }

  /** Several sources may share one target, and only the first of several equal-email targets is
      used. */
  lemma MatchUsersExamples()
    ensures var a := UserWithEmail("A", "x");
            var b := UserWithEmail("B", "x");
            var c := UserWithEmail("C", "x");
            var d := UserWithEmail("D", "x");
            && MatchUsers([a, b], [c]) == [(a, c), (b, c)]
            && MatchUsers([a], [c, d]) == [(a, c)]
            && MatchUsers([a], []) == []
  {
    var a := UserWithEmail("A", "x");
    var b := UserWithEmail("B", "x");
    var c := UserWithEmail("C", "x");
    var d := UserWithEmail("D", "x");
    assert [a, b][1..] == [b];
    assert [b][1..] == [];
    assert [a][1..] == [];
    assert FirstEmailMatch("x", [c]) == Some(0);
    assert FirstEmailMatch("x", [c, d]) == Some(0);
    assert MatchUsers([b], [c]) == [(b, c)];
  }
}
