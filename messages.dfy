/**
 * The message records of the forum server and the pure operations the routes
 * apply to the global array `allMsgs`: renumbering, filtering by id and posting
 * with eviction. The class in module Server calls these; everything that is
 * promised about the store is proved here, on values.
 */
module Messages {
  import opened Wrappers

  /** One stored record `{id, msg, pseudo, date}`; `date` is an opaque ISO-8601 text. */
  datatype Message = Message(id: int, msg: string, pseudo: string, date: string)

  /** The author used when the `pseudo` query parameter is absent or empty. */
  const DefaultPseudo: string := "Anonyme"

  /** Two records carry the same text, author and date; their ids may differ. */
  predicate SameRecord(a: Message, b: Message) {
    a.msg == b.msg && a.pseudo == b.pseudo && a.date == b.date
  }

  /** Every record's `id` field equals its position in the array. */
  predicate IdsArePositions(s: seq<Message>) {
    forall i :: 0 <= i < |s| ==> s[i].id == i
  }

  /** The ids of `s` run consecutively from `base`. */
  predicate IdsFrom(s: seq<Message>, base: int) {
    forall i :: 0 <= i < |s| ==> s[i].id == base + i
  }

  /** No record of `s` has the id `id`. */
  predicate IdAbsent(s: seq<Message>, id: int) {
    forall i :: 0 <= i < |s| ==> s[i].id != id
  }

  /** The bounds check of `/msg/get/:id` and `/msg/del/:id`: not NaN, not negative, below the length. */
  predicate ValidIndex(s: seq<Message>, id: Option<int>): (b: bool)
    ensures b <==> id.Some? && 0 <= id.value < |s|
  {
    !(id.None? || id.value < 0 || id.value >= |s|)
  }

  /** `allMsgs.map((msg, index) => ({...msg, id: index}))`: every id becomes its position. */
  function Renumber(s: seq<Message>): (r: seq<Message>)
    ensures |r| == |s| && IdsArePositions(r)
    ensures forall i :: 0 <= i < |s| ==> SameRecord(r[i], s[i])
  {
    seq(|s|, i requires 0 <= i < |s| => s[i].(id := i))
  }

  /** `allMsgs.filter(msg => msg.id !== id)`: drops EVERY record whose id field is `id`. */
  function WithoutId(s: seq<Message>, id: int): (r: seq<Message>)
    ensures |r| <= |s|
    ensures IdAbsent(r, id)
  {
    if s == [] then []
    else if s[0].id == id then WithoutId(s[1..], id)
    else [s[0]] + WithoutId(s[1..], id)
  }

  /** `req.query.pseudo || 'Anonyme'`, after decoding ("" stands for an absent parameter). */
  function PseudoOrDefault(pseudo: string): (r: string)
    ensures r != ""
    ensures pseudo != "" ==> r == pseudo
    ensures pseudo == "" ==> r == DefaultPseudo
  {
    if pseudo == "" then DefaultPseudo else pseudo
  }

  /**
   * The array after `post`: when the length is at least the maximum, one `shift()`
   * (a no-op on an empty array), then `push` of a record whose id is the length
   * after the shift. The surviving records keep their ids.
   */
  function Posted(s: seq<Message>, maxMessages: nat, message: string, pseudo: string, date: string): (r: seq<Message>)
    ensures |r| == (if |s| >= maxMessages && s != [] then |s| else |s| + 1)
    ensures r[|r| - 1] == Message(|r| - 1, message, PseudoOrDefault(pseudo), date)
    ensures |s| < maxMessages || s == [] ==> r[..|r| - 1] == s
    ensures |s| >= maxMessages && s != [] ==> r[..|r| - 1] == s[1..]
  {
    var kept := if |s| >= maxMessages && s != [] then s[1..] else s;
    kept + [Message(|kept|, message, PseudoOrDefault(pseudo), date)]
  }

  /** The requests that change the array. */
  datatype Request =
    | GetAll
    | Post(message: string, pseudo: string, date: string)
    | Del(id: Option<int>)

  /** The array after one request; a `del` that fails its bounds check changes nothing. */
  function Step(s: seq<Message>, maxMessages: nat, req: Request): (r: seq<Message>)
    ensures |r| <= |s| + 1
    ensures |r| == |s| + 1 ==> req.Post? && (|s| < maxMessages || s == [])
    ensures req.GetAll? ==> IdsArePositions(r) && |r| == |s|
    ensures req.Del? ==> if ValidIndex(s, req.id) then IdsArePositions(r) && |r| <= |s| else r == s
  {
    match req
    case GetAll => Renumber(s)
    case Post(message, pseudo, date) => Posted(s, maxMessages, message, pseudo, date)
    case Del(id) => if ValidIndex(s, id) then Renumber(WithoutId(s, id.value)) else s
  }

  /** The array after a sequence of requests, served one at a time. */
  function Run(s: seq<Message>, maxMessages: nat, reqs: seq<Request>): (r: seq<Message>)
    ensures |r| <= |s| + |reqs|
    decreases |reqs|
  {
    if reqs == [] then s else Run(Step(s, maxMessages, reqs[0]), maxMessages, reqs[1..])
  }

  // ---------------------------------------------------------------- getAll

  /** Renumbering twice is renumbering once: a second `getAll` returns the same array. */
  lemma RenumberIdempotent(s: seq<Message>)
    ensures Renumber(Renumber(s)) == Renumber(s)
  {
  }

  /** An array whose ids already equal positions is left as it is by `getAll`. */
  lemma RenumberOfPositions(s: seq<Message>)
    requires IdsArePositions(s)
    ensures Renumber(s) == s
  {
  }

  // ---------------------------------------------------------------- del

  /** Filtering distributes over concatenation, so it keeps relative order. */
  lemma {:induction false} WithoutIdAppend(a: seq<Message>, b: seq<Message>, id: int)
    ensures WithoutId(a + b, id) == WithoutId(a, id) + WithoutId(b, id)
  {
    if a == [] {
      assert a + b == b;
    } else {
      assert (a + b)[1..] == a[1..] + b;
      WithoutIdAppend(a[1..], b, id);
    }
  }

  /**
   * A record survives the filter exactly when it was there and carries another id,
   * and then as many times as it was there.
   */
  lemma {:induction false} WithoutIdMembers(s: seq<Message>, id: int, m: Message)
    ensures multiset(WithoutId(s, id))[m] == if m.id == id then 0 else multiset(s)[m]
    ensures m in WithoutId(s, id) <==> m in s && m.id != id
  {
    if s != [] {
      WithoutIdMembers(s[1..], id, m);
      assert s == [s[0]] + s[1..];
      assert multiset(s) == multiset([s[0]]) + multiset(s[1..]);
    }
  }

  /** A filter on an id nobody carries removes nothing. */
  lemma {:induction false} WithoutIdAbsent(s: seq<Message>, id: int)
    requires IdAbsent(s, id)
    ensures WithoutId(s, id) == s
  {
    if s != [] {
      WithoutIdAbsent(s[1..], id);
    }
  }

  /** When ids run consecutively from `base`, filtering on `base + j` removes exactly position `j`. */
  lemma {:induction false} WithoutIdConsecutive(s: seq<Message>, base: int, j: int)
    requires IdsFrom(s, base) && 0 <= j < |s|
    ensures WithoutId(s, base + j) == s[..j] + s[j + 1..]
  {
    assert IdsFrom(s[1..], base + 1) by {
      forall i | 0 <= i < |s[1..]| ensures s[1..][i].id == base + 1 + i {
        assert s[1..][i] == s[i + 1];
      }
    }
    if j == 0 {
      assert s[0].id == base;
      assert IdAbsent(s[1..], base);
      WithoutIdAbsent(s[1..], base);
      assert WithoutId(s, base) == WithoutId(s[1..], base);
      assert s[..0] + s[1..] == s[1..];
    } else {
      assert s[0].id != base + j;
      assert WithoutId(s, base + j) == [s[0]] + WithoutId(s[1..], base + j);
      WithoutIdConsecutive(s[1..], base + 1, j - 1);
      assert s[..j] + s[j + 1..] == [s[0]] + (s[1..][..j - 1] + s[1..][j..]);
    }
  }

  /**
   * When ids equal positions (after `getAll` or `del`), a valid `del(id)` removes
   * exactly the record at position `id`: the length drops by one and the others
   * keep their text, author, date and relative order.
   */
  lemma DelRemovesExactlyOne(s: seq<Message>, id: int)
    requires IdsArePositions(s) && 0 <= id < |s|
    ensures WithoutId(s, id) == s[..id] + s[id + 1..]
    ensures |Renumber(WithoutId(s, id))| == |s| - 1
  {
    WithoutIdConsecutive(s, 0, id);
  }

  // ---------------------------------------------------------------- post

  /** A post below the maximum keeps "ids equal positions": the new id is the old length. */
  lemma PostKeepsPositions(s: seq<Message>, maxMessages: nat, message: string, pseudo: string, date: string)
    requires IdsArePositions(s) && |s| < maxMessages
    ensures IdsArePositions(Posted(s, maxMessages, message, pseudo, date))
  {
  }

  /**
   * An evicting post on an array whose ids equal positions leaves the last two
   * records with the same id (the survivors are not renumbered), and every survivor's
   * id is one more than its position.
   */
  lemma EvictionSharesId(s: seq<Message>, maxMessages: nat, message: string, pseudo: string, date: string)
    requires IdsArePositions(s) && 2 <= |s| && maxMessages <= |s|
    ensures var r := Posted(s, maxMessages, message, pseudo, date);
      |r| == |s| && IdsFrom(r[..|r| - 1], 1) && r[|r| - 2].id == r[|r| - 1].id == |s| - 1
  {
  }

  /**
   * After an evicting post, `del` no longer removes one record: `del` of the last
   * position removes the last TWO records, and `del(0)` passes the bounds check
   * and removes nothing.
   */
  lemma {:induction false} EvictionBreaksDel(s: seq<Message>, maxMessages: nat, message: string, pseudo: string, date: string)
    requires IdsArePositions(s) && 2 <= |s| && maxMessages <= |s|
    ensures var r := Posted(s, maxMessages, message, pseudo, date);
      WithoutId(r, |r| - 1) == r[..|r| - 2] && WithoutId(r, 0) == r
  {
    var r := Posted(s, maxMessages, message, pseudo, date);
    EvictionSharesId(s, maxMessages, message, pseudo, date);
    var n := |r|;
    var head, tail := r[..n - 2], r[n - 2..];
    assert r == head + tail;
    assert IdAbsent(head, n - 1) by {
      forall i | 0 <= i < |head| ensures head[i].id != n - 1 {
        assert head[i] == r[..n - 1][i];
      }
    }
    WithoutIdAbsent(head, n - 1);
    WithoutIdAppend(head, tail, n - 1);
    assert tail == [r[n - 2], r[n - 1]];
    assert WithoutId(tail, n - 1) == [] by {
      assert tail[1..] == [r[n - 1]];
      assert tail[1..][1..] == [];
    }
    assert head + [] == head;
    assert IdAbsent(r, 0) by {
      forall i | 0 <= i < n ensures r[i].id != 0 {
        if i < n - 1 {
          assert r[i] == r[..n - 1][i];
        }
      }
    }
    WithoutIdAbsent(r, 0);
  }

  /** With `MAX_MESSAGES` = 2, posting "A", "B", "C" on an empty store leaves "B" then "C", both with id 1. */
  lemma ThreePostsWithMaximumTwo(d1: string, d2: string, d3: string)
    ensures var r := Posted(Posted(Posted([], 2, "A", "", d1), 2, "B", "", d2), 2, "C", "", d3);
      r == [Message(1, "B", DefaultPseudo, d2), Message(1, "C", DefaultPseudo, d3)]
  {
  }

  // ---------------------------------------------------------------- all routes

  /**
   * With a maximum of at least one, a store that starts within the maximum stays
   * within it, whatever sequence of `getAll`, `post` and `del` requests it serves.
   */
  lemma {:induction false} RunStaysBounded(s: seq<Message>, maxMessages: nat, reqs: seq<Request>)
    requires 1 <= maxMessages && |s| <= maxMessages
    ensures |Run(s, maxMessages, reqs)| <= maxMessages
    decreases |reqs|
  {
    if reqs != [] {
      var t := Step(s, maxMessages, reqs[0]);
      assert |t| <= maxMessages;
      RunStaysBounded(t, maxMessages, reqs[1..]);
    }
  }

  /** A store over the maximum never grows: each request keeps it within its old length or the maximum. */
  lemma {:induction false} RunNeverGrowsPastStart(s: seq<Message>, maxMessages: nat, reqs: seq<Request>)
    requires 1 <= maxMessages
    ensures |Run(s, maxMessages, reqs)| <= if |s| < maxMessages then maxMessages else |s|
    decreases |reqs|
  {
    if reqs != [] {
      var t := Step(s, maxMessages, reqs[0]);
      RunNeverGrowsPastStart(t, maxMessages, reqs[1..]);
    }
  }
}
