/** The decisions of main.py: the weighted draw without replacement, the participant
    collection and count guard of the `gewinnspiel` command, and the routing of a message
    in a support thread.

    The random draw is an oracle: in round `r` the winner is the remaining participant at
    `choose(r) % n`, n the number of participants left. Discord objects are reduced to the
    fields the decisions read; user records are the cached records of DbHandler. */
module Giveaway {
  import opened Common
  import DbHandler

  // ---------------------------------------------------------------------------
  // weighted_random_selection

  predicate Distinct<T(==)>(s: seq<T>) {
    forall i, j :: 0 <= i < j < |s| ==> s[i] != s[j]
  }

  function Sum(ws: seq<int>): int {
    if ws == [] then 0 else ws[0] + Sum(ws[1..])
  }

  /** `list.index(x)`: the first position of `x`. */
  function FirstIndex<T(==)>(s: seq<T>, x: T): (i: nat)
    requires x in s
    ensures i < |s| && s[i] == x && x !in s[..i]
  {
    if s[0] == x then 0 else 1 + FirstIndex(s[1..], x)
  }

  /** The number of winners a draw returns. */
  function DrawSize(numWinners: int, participants: nat): nat {
    if numWinners <= 0 then 0 else if numWinners < participants then numWinners else participants
  }

  /** weighted_random_selection, or None when random.choices raises its ValueError
      because the remaining weights do not add up to a positive total. The lists the
      caller passed are not touched: the loop works on copies. */
  method WeightedRandomSelection<T(==)>(participants: seq<T>, weights: seq<int>, numWinners: int,
                                        choose: nat -> nat)
    returns (winners: Option<seq<T>>)
    requires |weights| == |participants|
    ensures winners.Some? ==> |winners.value| == DrawSize(numWinners, |participants|)
    ensures winners.Some? ==> multiset(winners.value) <= multiset(participants)
    ensures winners.Some? && Distinct(participants) ==> Distinct(winners.value)
    ensures (forall k :: 0 <= k < |weights| ==> weights[k] > 0) ==> winners.Some?
  {
    var selected: seq<T> := [];
    var remaining, remainingWeights := participants, weights;
    ghost var from: seq<nat> := seq(|participants|, k => k);
    var round := 0;
    while round < numWinners
      invariant 0 <= round && (numWinners > 0 ==> round <= numWinners) && (numWinners <= 0 ==> round == 0)
      invariant |selected| == round && |remaining| == |participants| - round
      invariant Aligned(participants, weights, remaining, remainingWeights, from)
      invariant multiset(selected) + multiset(remaining) == multiset(participants)
    {
      if remaining == [] {
        break;
      }
      if Sum(remainingWeights) <= 0 {
        PositiveWeightsSum(weights, remainingWeights, from);
        return None;
      }
      var c := choose(round) % |remaining|;
      var winner := remaining[c];
      selected := selected + [winner];
      var index := FirstIndex(remaining, winner);
      RemoveAtFacts(remaining, index);
      AlignedRemoveAt(participants, weights, remaining, remainingWeights, from, index);
      assert multiset(selected) + multiset(RemoveAt(remaining, index)) == multiset(participants);
      remaining := RemoveAt(remaining, index);
      remainingWeights := RemoveAt(remainingWeights, index);
      from := RemoveAt(from, index);
      round := round + 1;
    }
    assert multiset(selected) <= multiset(participants);
    if Distinct(participants) {
      SubMultisetOfDistinct(selected, participants);
    }
    return Some(selected);
  }

  /** The lists still in play are the participants and weights at the positions `from`. */
  ghost predicate Aligned<T>(participants: seq<T>, weights: seq<int>,
                             remaining: seq<T>, remainingWeights: seq<int>, from: seq<nat>) {
    && |remainingWeights| == |remaining| && |from| == |remaining|
    && forall k :: 0 <= k < |from| ==>
         from[k] < |participants| && from[k] < |weights| && remaining[k] == participants[from[k]]
         && remainingWeights[k] == weights[from[k]]
  }

  lemma AlignedRemoveAt<T>(participants: seq<T>, weights: seq<int>,
                           remaining: seq<T>, remainingWeights: seq<int>, from: seq<nat>, i: nat)
    requires Aligned(participants, weights, remaining, remainingWeights, from) && i < |remaining|
    ensures Aligned(participants, weights, RemoveAt(remaining, i), RemoveAt(remainingWeights, i), RemoveAt(from, i))
  {
    RemoveAtFacts(remaining, i);
    RemoveAtFacts(remainingWeights, i);
    RemoveAtFacts(from, i);
  }

  /** `list.pop(i)`: the list without its element at `i`. */
  function RemoveAt<T>(s: seq<T>, i: nat): seq<T>
    requires i < |s|
  {
    s[..i] + s[i + 1..]
  }

  lemma RemoveAtFacts<T>(s: seq<T>, i: nat)
    requires i < |s|
    ensures |RemoveAt(s, i)| == |s| - 1
    ensures forall k :: 0 <= k < |s| - 1 ==> RemoveAt(s, i)[k] == if k < i then s[k] else s[k + 1]
    ensures multiset(RemoveAt(s, i)) + multiset{s[i]} == multiset(s)
  {
    assert s == s[..i] + [s[i]] + s[i + 1..];
  }

  /** Weights taken from a list of positive weights add up to a positive total. */
  lemma PositiveWeightsSum(weights: seq<int>, picked: seq<int>, from: seq<nat>)
    requires |picked| == |from| && picked != []
    requires forall k :: 0 <= k < |from| ==> from[k] < |weights| && picked[k] == weights[from[k]]
    ensures (forall k :: 0 <= k < |weights| ==> weights[k] > 0) ==> Sum(picked) > 0
  {
    if forall k :: 0 <= k < |weights| ==> weights[k] > 0 {
      forall k | 0 <= k < |picked| ensures picked[k] > 0 {
        assert picked[k] == weights[from[k]];
      }
      AllPositiveSum(picked);
    }
  }

  lemma {:induction false} AllPositiveSum(ws: seq<int>)
    requires ws != [] && forall k :: 0 <= k < |ws| ==> ws[k] > 0
    ensures Sum(ws) > 0
    decreases |ws|
  {
    if |ws| > 1 {
      AllPositiveSum(ws[1..]);
    }
  }

  lemma {:induction false} DistinctCounts<T>(s: seq<T>, x: T)
    requires Distinct(s)
    ensures multiset(s)[x] <= 1
    decreases |s|
  {
    if s != [] {
      assert s == [s[0]] + s[1..];
      DistinctCounts(s[1..], x);
      if s[0] == x {
        assert x !in s[1..];
      }
    }
  }

  /** Winners drawn without replacement from distinct participants are distinct. */
  lemma SubMultisetOfDistinct<T>(w: seq<T>, p: seq<T>)
    requires Distinct(p) && multiset(w) <= multiset(p)
    ensures Distinct(w)
  {
    forall i, j | 0 <= i < j < |w| ensures w[i] != w[j] {
      if w[i] == w[j] {
        var x := w[i];
        assert w == w[..j] + [x] + w[j + 1..];
        assert x in w[..j];
        assert multiset(w)[x] >= 2;
        DistinctCounts(p, x);
        assert false;
      }
    }
  }

  // ---------------------------------------------------------------------------
  // gewinnspiel

  /** A user who reacted to the giveaway message (under any of its reactions). */
  datatype Reactor = Reactor(id: string, bot: bool)

  /** `user_data and user_data.get("points_assigned")`: a record with truthy points. */
  predicate HasPoints(records: map<string, DbHandler.Record>, id: string) {
    id in records && records[id].pointsAssigned.Some? && records[id].pointsAssigned.value != 0
  }

  /** The participants and weights the reaction loop gathers, in order. A user who
      reacted under several reactions is gathered once per reaction. */
  function Gathered(reactors: seq<Reactor>, records: map<string, DbHandler.Record>): (r: (seq<string>, seq<int>))
    ensures |r.0| == |r.1|
    ensures forall k :: 0 <= k < |r.1| ==> r.1[k] != 0
  {
    if reactors == [] then ([], [])
    else
      var (ps, ws) := Gathered(reactors[..|reactors| - 1], records);
      var u := reactors[|reactors| - 1];
      if !u.bot && HasPoints(records, u.id) then (ps + [u.id], ws + [records[u.id].pointsAssigned.value])
      else (ps, ws)
  }

  /** Exactly the non-bot reactors with truthy points take part. */
  lemma {:induction false} GatheredMembers(reactors: seq<Reactor>, records: map<string, DbHandler.Record>, id: string)
    ensures id in Gathered(reactors, records).0 <==>
            (exists k :: 0 <= k < |reactors| && reactors[k].id == id && !reactors[k].bot) && HasPoints(records, id)
    decreases |reactors|
  {
    if reactors != [] {
      var init := reactors[..|reactors| - 1];
      GatheredMembers(init, records, id);
      if exists k :: 0 <= k < |init| && init[k].id == id && !init[k].bot {
        var k :| 0 <= k < |init| && init[k].id == id && !init[k].bot;
        assert reactors[k] == init[k];
      }
      if exists k :: 0 <= k < |reactors| && reactors[k].id == id && !reactors[k].bot {
        var k :| 0 <= k < |reactors| && reactors[k].id == id && !reactors[k].bot;
        if k < |init| {
          assert init[k] == reactors[k];
        }
      }
    }
  }

  /** Each weight is the points of the participant at the same position. */
  predicate WeightsArePoints(ps: seq<string>, ws: seq<int>, records: map<string, DbHandler.Record>) {
    |ps| == |ws| && forall k :: 0 <= k < |ps| ==> HasPoints(records, ps[k]) && ws[k] == records[ps[k]].pointsAssigned.value
  }

  /** Every gathered weight is the participant's points. */
  lemma {:induction false} GatheredWeights(reactors: seq<Reactor>, records: map<string, DbHandler.Record>)
    ensures WeightsArePoints(Gathered(reactors, records).0, Gathered(reactors, records).1, records)
    decreases |reactors|
  {
    if reactors != [] {
      var init := reactors[..|reactors| - 1];
      GatheredWeights(init, records);
      var ps, ws := Gathered(init, records).0, Gathered(init, records).1;
      assert WeightsArePoints(ps, ws, records);
      var u := reactors[|reactors| - 1];
      if !u.bot && HasPoints(records, u.id) {
        var ps', ws' := ps + [u.id], ws + [records[u.id].pointsAssigned.value];
        assert Gathered(reactors, records) == (ps', ws');
        forall k | 0 <= k < |ps'| ensures HasPoints(records, ps'[k]) && ws'[k] == records[ps'[k]].pointsAssigned.value {
          if k < |ps| {
            assert ps'[k] == ps[k] && ws'[k] == ws[k];
          }
        }
        assert WeightsArePoints(ps', ws', records);
      } else {
        assert Gathered(reactors, records) == (ps, ws);
      }
    }
  }

  datatype DrawOutcome = NotEnoughParticipants | Drawn(winners: seq<string>) | WeightsRaise

  /** The gewinnspiel command after its channel checks: gather, refuse when fewer
      participants than winners are asked for, otherwise draw. */
  method Draw(reactors: seq<Reactor>, records: map<string, DbHandler.Record>, count: int, choose: nat -> nat)
    returns (outcome: DrawOutcome)
    ensures var (ps, ws) := Gathered(reactors, records);
            && (outcome == NotEnoughParticipants <==> |ps| < count)
            && (outcome.Drawn? ==> |outcome.winners| == (if count <= 0 then 0 else count))
            && (outcome.Drawn? ==> multiset(outcome.winners) <= multiset(ps))
            && (outcome.Drawn? && Distinct(ps) ==> Distinct(outcome.winners))
            && ((forall k :: 0 <= k < |ws| ==> ws[k] > 0) && |ps| >= count ==> outcome.Drawn?)
  {
    var participants: seq<string> := [];
    var weights: seq<int> := [];
    var i := 0;
    while i < |reactors|
      invariant 0 <= i <= |reactors|
      invariant (participants, weights) == Gathered(reactors[..i], records)
    {
      var user := reactors[i];
      assert reactors[..i + 1][..i] == reactors[..i] && reactors[..i + 1][i] == user;
      if !user.bot {
        if user.id in records {
          var data := records[user.id];
          if data.pointsAssigned.Some? && data.pointsAssigned.value != 0 {
            participants := participants + [user.id];
            weights := weights + [data.pointsAssigned.value];
          }
        }
      }
      i := i + 1;
    }
    assert reactors[..i] == reactors;
    if |participants| < count {
      return NotEnoughParticipants;
    }
    var winners := WeightedRandomSelection(participants, weights, count, choose);
    if winners.None? {
      return WeightsRaise;
    }
    return Drawn(winners.value);
  }

  // ---------------------------------------------------------------------------
  // on_message

  /** What the bot does with a message. */
  datatype Action =
    | Ignore
    | AskForEpicName
    | StillInReview
    | SaveImage(url: string)
    | ImageNotExpected
    | VideoNotAccepted
    | SaveStreamable(url: string)
    | AskForQuiet

  /** The fields of a message on_message reads. `inSupportCategory` holds when the parent
      channel has no category or has the support category; `firstAttachment` is the
      content type and url of the first attachment, when there is one. */
  datatype Message = Message(fromBot: bool, inPrivateThread: bool, inSupportCategory: bool,
                             content: string, firstAttachment: Option<(string, string)>)

  predicate InStep(record: Option<DbHandler.Record>, step: string) {
    record.Some? && record.value.stepState == Some(step)
  }

  /** The routing of on_message, given the author's record (None when there is no file). */
  function Route(m: Message, record: Option<DbHandler.Record>): (a: Action)
    ensures a != Ignore <==> !m.fromBot && m.inPrivateThread && m.inSupportCategory
    ensures a != Ignore && record.None? ==> a == AskForEpicName
  {
    if m.fromBot || !m.inPrivateThread || !m.inSupportCategory then Ignore
    else if record.None? then AskForEpicName
    else if InStep(record, "wait") then StillInReview
    else if m.firstAttachment.Some? && Contains(m.firstAttachment.value.0, "image") then
      if InStep(record, "image_proof") then SaveImage(m.firstAttachment.value.1) else ImageNotExpected
    else if m.firstAttachment.Some? && Contains(m.firstAttachment.value.0, "video") then VideoNotAccepted
    else if Contains(m.content, "streamable.com") then SaveStreamable(m.content)
    else AskForQuiet
  }

  predicate Saves(a: Action) {
    a.SaveImage? || a.SaveStreamable?
  }

  /** Without a record, or while the proof is in review, nothing is saved. */
  lemma NothingSavedWithoutRecordOrInReview(m: Message, record: Option<DbHandler.Record>)
    requires record.None? || InStep(record, "wait")
    ensures !Saves(Route(m, record))
  {
  }

  /** An image is saved only at the image-proof step, and it is the first attachment's url. */
  lemma ImageSavedOnlyAtImageProof(m: Message, record: Option<DbHandler.Record>)
    requires Route(m, record).SaveImage?
    ensures InStep(record, "image_proof")
    ensures m.firstAttachment.Some? && Route(m, record).url == m.firstAttachment.value.1
  {
  }

  /** A streamable.com link is saved exactly when a record exists, the proof is not in
      review, and no image or video attachment decided the message first. */
  lemma StreamableSavedIff(m: Message, record: Option<DbHandler.Record>)
    requires !m.fromBot && m.inPrivateThread && m.inSupportCategory
    ensures Route(m, record).SaveStreamable? <==>
            record.Some? && !InStep(record, "wait") && Contains(m.content, "streamable.com")
            && (m.firstAttachment.None? || (!Contains(m.firstAttachment.value.0, "image")
                                            && !Contains(m.firstAttachment.value.0, "video")))
    ensures Route(m, record).SaveStreamable? ==> Route(m, record).url == m.content
  {
  }
}
