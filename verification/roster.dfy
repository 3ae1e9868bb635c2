/**
 The chat hook's participant bookkeeping (src/hooks/useChat.ts): who has
 written in the session, deduplicated the way a JavaScript `Map` keyed by user
 id deduplicates, and the outgoing-message rule. The roster derived here is
 also the peer list the audio mesh connects to.
 */
module Roster {
  import opened Wrappers
  import opened Strings

  datatype User = User(id: string, name: string)

  datatype Message = Message(id: string, author: User, text: string, timestamp: int)

  /** The document `sendMessage` adds to the messages collection (its
      timestamp is assigned by the store). */
  datatype Outgoing = Outgoing(author: User, text: string)

  function Authors(ms: seq<Message>): (r: seq<User>)
    ensures |r| == |ms|
    ensures forall i :: 0 <= i < |ms| ==> r[i] == ms[i].author
  {
    if ms == [] then [] else [ms[0].author] + Authors(ms[1..])
  }

  /** Some entry of `us` carries the id. */
  predicate HasId(us: seq<User>, id: string) {
    exists i :: 0 <= i < |us| && us[i].id == id
  }

  /** No id occurs twice. */
  predicate DistinctIds(us: seq<User>) {
    forall i, j :: 0 <= i < j < |us| ==> us[i].id != us[j].id
  }

  /** The value a `Map` keyed by id ends up holding for `id`: the last entry
      with that id. */
  function LastWithId(us: seq<User>, id: string): (u: User)
    requires HasId(us, id)
    ensures u in us && u.id == id
  {
    if us[|us| - 1].id == id then us[|us| - 1]
    else
      assert HasId(us[..|us| - 1], id) by {
        var i :| 0 <= i < |us| && us[i].id == id;
        assert us[..|us| - 1][i].id == id;
      }
      LastWithId(us[..|us| - 1], id)
  }

  /** The position at which a `Map` keyed by id first received `id`. */
  function FirstIndex(us: seq<User>, id: string): (k: nat)
    requires HasId(us, id)
    ensures k < |us| && us[k].id == id
    ensures forall j :: 0 <= j < k ==> us[j].id != id
  {
    if HasId(us[..|us| - 1], id) then FirstIndex(us[..|us| - 1], id)
    else
      var init := us[..|us| - 1];
      assert forall j :: 0 <= j < |init| ==> init[j].id != id;
      |us| - 1
  }

  /** Where `id` sits in `acc`, scanning from the front. */
  function FindId(acc: seq<User>, id: string): (r: Option<nat>)
    ensures r.Some? ==> r.value < |acc| && acc[r.value].id == id
    ensures r.None? <==> !HasId(acc, id)
  {
    if acc == [] then None
    else if acc[0].id == id then Some(0)
    else match FindId(acc[1..], id)
      case None =>
        assert !HasId(acc, id) by {
          forall i | 0 <= i < |acc| ensures acc[i].id != id {
            if i > 0 { assert acc[1..][i - 1] == acc[i]; }
          }
        }
        None
      case Some(k) => Some(k + 1)
  }

  /** `Map.prototype.set`: overwrite the entry with the same id in place, or
      append a new one. */
  function Upsert(acc: seq<User>, u: User): (r: seq<User>)
    requires DistinctIds(acc)
    ensures DistinctIds(r)
    ensures HasId(acc, u.id) ==> |r| == |acc| && exists k :: 0 <= k < |acc| && acc[k].id == u.id && r == acc[k := u]
    ensures !HasId(acc, u.id) ==> r == acc + [u]
  {
    match FindId(acc, u.id)
    case Some(k) => acc[k := u]
    case None => acc + [u]
  }

  /** The values of `new Map(us.map(p => [p.id, p]))`, in the map's iteration
      order: one entry per id, ordered by the id's first occurrence, holding the
      id's last occurrence. */
  function DedupById(us: seq<User>): (r: seq<User>)
    ensures DistinctIds(r)
    ensures forall id :: HasId(r, id) <==> HasId(us, id)
    ensures forall i :: 0 <= i < |r| ==> HasId(us, r[i].id) && r[i] == LastWithId(us, r[i].id)
    ensures forall i, j :: 0 <= i < j < |r| ==>
              HasId(us, r[i].id) && HasId(us, r[j].id) &&
              FirstIndex(us, r[i].id) < FirstIndex(us, r[j].id)
  {
    if us == [] then []
    else
      var init := us[..|us| - 1];
      var u := us[|us| - 1];
      var prev := DedupById(init);
      var r := Upsert(prev, u);
      DedupStepIds(init, u, prev);
      DedupStepLast(init, u, prev);
      DedupStepOrder(init, u, prev, r);
      assert us == init + [u];
      r
  }

  /** Appending an entry does not move the first occurrence of an id already
      present. */
  lemma FirstIndexExtend(init: seq<User>, u: User, id: string)
    requires HasId(init, id)
    ensures HasId(init + [u], id) && FirstIndex(init + [u], id) == FirstIndex(init, id)
  {
    var us := init + [u];
    assert us[..|us| - 1] == init;
    var i :| 0 <= i < |init| && init[i].id == id;
    assert us[i].id == id;
  }

  /** Appending an entry with another id does not change an id's last value. */
  lemma LastWithIdExtend(init: seq<User>, u: User, id: string)
    requires HasId(init + [u], id) && id != u.id
    ensures HasId(init, id) && LastWithId(init + [u], id) == LastWithId(init, id)
  {
    var us := init + [u];
    assert us[..|us| - 1] == init;
    var i :| 0 <= i < |us| && us[i].id == id;
    assert i < |init| && init[i].id == id;
  }

  lemma HasIdAppend(init: seq<User>, u: User, id: string)
    ensures HasId(init + [u], id) <==> HasId(init, id) || id == u.id
  {
    var us := init + [u];
    if HasId(init, id) {
      var i :| 0 <= i < |init| && init[i].id == id;
      assert us[i].id == id;
    }
    if id == u.id { assert us[|init|].id == id; }
    if HasId(us, id) && id != u.id {
      var i :| 0 <= i < |us| && us[i].id == id;
      assert init[i].id == id;
    }
  }

  /** `Upsert` covers exactly the ids of its input plus the new one. */
  lemma UpsertIds(prev: seq<User>, u: User, id: string)
    requires DistinctIds(prev)
    ensures HasId(Upsert(prev, u), id) <==> HasId(prev, id) || id == u.id
  {
    var r := Upsert(prev, u);
    if HasId(prev, u.id) {
      var k :| 0 <= k < |prev| && prev[k].id == u.id && r == prev[k := u];
      if HasId(prev, id) {
        var i :| 0 <= i < |prev| && prev[i].id == id;
        assert r[i].id == id;
      }
      if HasId(r, id) {
        var i :| 0 <= i < |r| && r[i].id == id;
        assert i == k || prev[i].id == id;
      }
    } else {
      HasIdAppend(prev, u, id);
    }
  }

  /** One `Map.prototype.set` keeps the id-set promise of `DedupById`. */
  lemma DedupStepIds(init: seq<User>, u: User, prev: seq<User>)
    requires DistinctIds(prev)
    requires forall id :: HasId(prev, id) <==> HasId(init, id)
    ensures forall id :: HasId(Upsert(prev, u), id) <==> HasId(init + [u], id)
  {
    forall id ensures HasId(Upsert(prev, u), id) <==> HasId(init + [u], id) {
      UpsertIds(prev, u, id);
      HasIdAppend(init, u, id);
    }
  }

  /** One `Map.prototype.set` keeps the last-value promise of `DedupById`. */
  lemma DedupStepLast(init: seq<User>, u: User, prev: seq<User>)
    requires DistinctIds(prev)
    requires forall id :: HasId(prev, id) <==> HasId(init, id)
    requires forall i :: 0 <= i < |prev| ==> HasId(init, prev[i].id) && prev[i] == LastWithId(init, prev[i].id)
    ensures var r := Upsert(prev, u);
      forall i :: 0 <= i < |r| ==> HasId(init + [u], r[i].id) && r[i] == LastWithId(init + [u], r[i].id)
  {
    var us := init + [u];
    var r := Upsert(prev, u);
    assert us[..|us| - 1] == init;
    assert us[|us| - 1] == u;
    assert HasId(us, u.id) by { HasIdAppend(init, u, u.id); }
    forall i | 0 <= i < |r| ensures HasId(us, r[i].id) && r[i] == LastWithId(us, r[i].id) {
      if r[i].id != u.id {
        assert r[i] == prev[i];
        HasIdAppend(init, u, r[i].id);
        LastWithIdExtend(init, u, r[i].id);
      }
    }
  }

  /** One `Map.prototype.set` keeps the first-occurrence order of `DedupById`. */
  lemma DedupStepOrder(init: seq<User>, u: User, prev: seq<User>, r: seq<User>)
    requires DistinctIds(prev) && r == Upsert(prev, u)
    requires forall id :: HasId(prev, id) <==> HasId(init, id)
    requires forall i, j :: 0 <= i < j < |prev| ==>
               HasId(init, prev[i].id) && HasId(init, prev[j].id) &&
               FirstIndex(init, prev[i].id) < FirstIndex(init, prev[j].id)
    ensures forall i, j :: 0 <= i < j < |r| ==>
        HasId(init + [u], r[i].id) && HasId(init + [u], r[j].id) &&
        FirstIndex(init + [u], r[i].id) < FirstIndex(init + [u], r[j].id)
  {
    var us := init + [u];
    forall i | 0 <= i < |r|
      ensures HasId(us, r[i].id)
      ensures forall j :: i < j < |r| ==> HasId(us, r[j].id) && FirstIndex(us, r[i].id) < FirstIndex(us, r[j].id)
    {
      UpsertIds(prev, u, r[i].id);
      HasIdAppend(init, u, r[i].id);
      forall j | i < j < |r|
        ensures HasId(us, r[j].id) && FirstIndex(us, r[i].id) < FirstIndex(us, r[j].id)
      {
        DedupStepOrderPair(init, u, prev, r, i, j);
      }
    }
  }

  lemma DedupStepOrderPair(init: seq<User>, u: User, prev: seq<User>, r: seq<User>, i: nat, j: nat)
    requires DistinctIds(prev) && r == Upsert(prev, u)
    requires forall id :: HasId(prev, id) <==> HasId(init, id)
    requires forall i, j :: 0 <= i < j < |prev| ==>
               HasId(init, prev[i].id) && HasId(init, prev[j].id) &&
               FirstIndex(init, prev[i].id) < FirstIndex(init, prev[j].id)
    requires i < j < |r|
    ensures HasId(init + [u], r[i].id) && HasId(init + [u], r[j].id)
    ensures FirstIndex(init + [u], r[i].id) < FirstIndex(init + [u], r[j].id)
  {
    if HasId(prev, u.id) {
      var k :| 0 <= k < |prev| && prev[k].id == u.id && r == prev[k := u];
      assert r[i].id == prev[i].id && r[j].id == prev[j].id;
      OrderKeptOnAppend(init, u, prev[i].id, prev[j].id);
    } else {
      assert r == prev + [u];
      assert r[i] == prev[i];
      if j < |prev| {
        assert r[j] == prev[j];
        OrderKeptOnAppend(init, u, prev[i].id, prev[j].id);
      } else {
        NewIdComesLast(init, u, prev[i].id);
      }
    }
  }

  lemma OrderKeptOnAppend(init: seq<User>, u: User, a: string, b: string)
    requires HasId(init, a) && HasId(init, b) && FirstIndex(init, a) < FirstIndex(init, b)
    ensures HasId(init + [u], a) && HasId(init + [u], b)
    ensures FirstIndex(init + [u], a) < FirstIndex(init + [u], b)
  {
    FirstIndexExtend(init, u, a);
    FirstIndexExtend(init, u, b);
  }

  lemma NewIdComesLast(init: seq<User>, u: User, a: string)
    requires HasId(init, a) && !HasId(init, u.id)
    ensures HasId(init + [u], a) && HasId(init + [u], u.id)
    ensures FirstIndex(init + [u], a) < FirstIndex(init + [u], u.id)
  {
    var us := init + [u];
    FirstIndexExtend(init, u, a);
    HasIdAppend(init, u, u.id);
    assert us[..|us| - 1] == init;
    assert FirstIndex(us, u.id) == |init|;
  }

  /** Keeps the users whose id differs from `id`, in order. */
  function WithoutId(us: seq<User>, id: string): (r: seq<User>)
    ensures forall u :: u in r <==> u in us && u.id != id
    ensures !HasId(r, id)
    ensures forall other :: other != id ==> (HasId(r, other) <==> HasId(us, other))
    ensures DistinctIds(us) ==> DistinctIds(r)
  {
    if us == [] then []
    else
      var rest := WithoutId(us[1..], id);
      assert us == [us[0]] + us[1..];
      HasIdCons(us[0], us[1..]);
      if us[0].id == id then rest
      else
        var r := [us[0]] + rest;
        HasIdCons(us[0], rest);
        DistinctCons(us[0], us[1..]);
        DistinctCons(us[0], rest);
        r
  }

  lemma HasIdCons(u: User, rest: seq<User>)
    ensures forall other :: HasId([u] + rest, other) <==> u.id == other || HasId(rest, other)
  {
    var us := [u] + rest;
    forall other | HasId(us, other) && u.id != other ensures HasId(rest, other) {
      var i :| 0 <= i < |us| && us[i].id == other;
      assert rest[i - 1].id == other;
    }
    forall other | HasId(rest, other) ensures HasId(us, other) {
      var i :| 0 <= i < |rest| && rest[i].id == other;
      assert us[i + 1].id == other;
    }
    assert us[0] == u;
  }

  /** A list with distinct ids is a head whose id the distinct tail lacks. */
  lemma DistinctCons(u: User, rest: seq<User>)
    ensures DistinctIds([u] + rest) <==> DistinctIds(rest) && !HasId(rest, u.id)
  {
    var us := [u] + rest;
    if DistinctIds(us) {
      forall i | 0 <= i < |rest| ensures rest[i].id != u.id {
        assert us[0] == u && rest[i] == us[i + 1];
      }
      forall i, j | 0 <= i < j < |rest| ensures rest[i].id != rest[j].id {
        assert rest[i] == us[i + 1] && rest[j] == us[j + 1];
      }
    }
    if DistinctIds(rest) && !HasId(rest, u.id) {
      forall i, j | 0 <= i < j < |us| ensures us[i].id != us[j].id {
        if i == 0 {
          assert us[j] == rest[j - 1];
        } else {
          assert us[i] == rest[i - 1] && us[j] == rest[j - 1];
        }
      }
    }
  }

  /** `participants`: the message authors, deduplicated by id, without the
      local user. */
  function Participants(ms: seq<Message>, self: User): (r: seq<User>)
    ensures DistinctIds(r)
    ensures !HasId(r, self.id)
    ensures forall i :: 0 <= i < |ms| && ms[i].author.id != self.id ==> HasId(r, ms[i].author.id)
    ensures forall i :: 0 <= i < |r| ==> exists k :: 0 <= k < |ms| && ms[k].author == r[i]
  {
    var authors := Authors(ms);
    var unique := DedupById(authors);
    var r := WithoutId(unique, self.id);
    forall i | 0 <= i < |ms| && ms[i].author.id != self.id ensures HasId(r, ms[i].author.id) {
      assert authors[i].id == ms[i].author.id;
      assert HasId(authors, ms[i].author.id);
    }
    forall i | 0 <= i < |r| ensures exists k :: 0 <= k < |ms| && ms[k].author == r[i] {
      assert r[i] in unique;
      var j :| 0 <= j < |unique| && unique[j] == r[i];
      var u := LastWithId(authors, unique[j].id);
      var k :| 0 <= k < |authors| && authors[k] == u;
      assert ms[k].author == r[i];
    }
    r
  }

  /** `allParticipants`: the local user followed by the participants,
      deduplicated by id. */
  function AllParticipants(self: User, participants: seq<User>): seq<User> {
    DedupById([self] + participants)
  }

  /** The combined roster leads with the local user, lists every participant,
      and holds each id once; it holds the local user's own record when the
      participant list omits the local id, as the chat hook's list always does. */
  lemma AllParticipantsShape(self: User, participants: seq<User>)
    ensures var r := AllParticipants(self, participants);
      && |r| > 0 && r[0].id == self.id
      && DistinctIds(r)
      && (forall id :: HasId(r, id) <==> id == self.id || HasId(participants, id))
      && (!HasId(participants, self.id) ==> r[0] == self)
  {
    var us := [self] + participants;
    assert us[0] == self;
    HasIdCons(self, participants);
    DedupHeadFirst(us);
    if !HasId(participants, self.id) {
      LastWithIdUnique(us, 0);
    }
  }

  /** Deduplication keeps the first entry's id in front. */
  lemma DedupHeadFirst(us: seq<User>)
    requires |us| > 0
    ensures |DedupById(us)| > 0 && DedupById(us)[0].id == us[0].id
  {
    var r := DedupById(us);
    assert HasId(us, us[0].id);
    var k :| 0 <= k < |r| && r[k].id == us[0].id;
    assert FirstIndex(us, us[0].id) == 0;
  }

  /** When an id occurs once, the `Map` keeps that very entry. */
  lemma LastWithIdUnique(us: seq<User>, k: nat)
    requires k < |us|
    requires forall j :: 0 <= j < |us| && j != k ==> us[j].id != us[k].id
    ensures HasId(us, us[k].id) && LastWithId(us, us[k].id) == us[k]
  {
    var id := us[k].id;
    assert HasId(us, id);
    if k != |us| - 1 {
      var init := us[..|us| - 1];
      assert init[k] == us[k];
      LastWithIdUnique(init, k);
    }
  }

  /** `sendMessage`: nothing for white-space-only text; otherwise the trimmed
      text under the user's id and name. */
  function SendMessage(self: User, text: string): (r: Option<Outgoing>)
    ensures r.None? <==> AllSpace(text)
    ensures r.Some? ==> r.value.author == User(self.id, self.name) && Unpadded(r.value.text)
    ensures r.Some? ==> r.value.text == Trim(text)
  {
    var t := Trim(text);
    if t == [] then None else Some(Outgoing(User(self.id, self.name), t))
  }
}
