/**
 * The route handlers of the forum server over the global array `allMsgs`.
 * `Board` owns that array; its methods are the mutating routes (`getAll`,
 * `post`, `del`), its functions the reading ones (`get`, `nber`).
 */
module Server {
  import opened Wrappers
  import opened Messages

  /** The maximum used when the `MAX_MESSAGES` environment variable is unset. */
  const DefaultMaxMessages: nat := 100

  /** The JSON answer of `/msg/get/:id`: `{code: 0}` or `{code: 1, msg: record}`. */
  datatype GetReply = NotFound | Found(msg: Message) {
    function Code(): int {
      if Found? then 1 else 0
    }
  }

  class Board {
    /** The store, oldest record first. */
    var allMsgs: seq<Message>
    /** `MAX_MESSAGES`. */
    const maxMessages: nat

    /** The server starts with three seeded records, each dated when it is built. */
    constructor (date0: string, date1: string, date2: string, maxMessages: nat := DefaultMaxMessages)
      ensures this.maxMessages == maxMessages
      ensures allMsgs == [Message(0, "Hello World", "System", date0),
                          Message(1, "Bienvenue sur le forum !", "Admin", date1),
                          Message(2, "CentraleSupelec Forever", "Étudiant", date2)]
      ensures IdsArePositions(allMsgs)
    {
      this.maxMessages := maxMessages;
      allMsgs := [Message(0, "Hello World", "System", date0),
                  Message(1, "Bienvenue sur le forum !", "Admin", date1),
                  Message(2, "CentraleSupelec Forever", "Étudiant", date2)];
    }

    /**
     * `/msg/get/:id`: code 0 unless the parsed id is a number in `0 .. length-1`;
     * otherwise the record at that POSITION, whatever its id field says.
     */
    function GetById(id: Option<int>): (r: GetReply)
      reads this
      ensures r.Code() == 1 <==> ValidIndex(allMsgs, id)
      ensures r.Found? ==> r.msg == allMsgs[id.value]
    {
      if !ValidIndex(allMsgs, id) then NotFound else Found(allMsgs[id.value])
    }

    /** `/msg/nber`: the number of stored records. */
    function Count(): (n: nat)
      reads this
      ensures n == |allMsgs|
    {
      |allMsgs|
    }

    /** `/msg/getAll`: renumbers every id to its position, stores and returns the result. */
    method GetAll() returns (r: seq<Message>)
      modifies this
      ensures allMsgs == Renumber(old(allMsgs)) && r == allMsgs
      ensures allMsgs == Step(old(allMsgs), maxMessages, Request.GetAll)
      ensures |r| == |old(allMsgs)| && IdsArePositions(r)
      ensures forall i :: 0 <= i < |r| ==> SameRecord(r[i], old(allMsgs)[i])
    {
      allMsgs := Renumber(allMsgs);
      r := allMsgs;
    }

    /**
     * `/msg/post/:message?pseudo=...`: `message` and `pseudo` are the decoded
     * parameters ("" for an absent pseudo), `date` the current ISO time. Evicts the
     * oldest record when full, then appends; always answers code 1.
     */
    method Post(message: string, pseudo: string, date: string) returns (code: int)
      modifies this
      ensures code == 1
      ensures allMsgs == Posted(old(allMsgs), maxMessages, message, pseudo, date)
      ensures allMsgs == Step(old(allMsgs), maxMessages, Request.Post(message, pseudo, date))
      ensures Count() == (if old(|allMsgs|) >= maxMessages && old(allMsgs) != [] then old(|allMsgs|) else old(|allMsgs|) + 1)
    {
      if |allMsgs| >= maxMessages && allMsgs != [] {
        allMsgs := allMsgs[1..];
      }
      var newMsg := Message(|allMsgs|, message, PseudoOrDefault(pseudo), date);
      allMsgs := allMsgs + [newMsg];
      code := 1;
    }

    /**
     * `/msg/del/:id`: code 0 and no change unless the parsed id is in `0 .. length-1`;
     * otherwise drops every record whose id FIELD equals it and renumbers the rest.
     */
    method Del(id: Option<int>) returns (code: int)
      modifies this
      ensures code == (if ValidIndex(old(allMsgs), id) then 1 else 0)
      ensures allMsgs == Step(old(allMsgs), maxMessages, Request.Del(id))
      ensures code == 0 ==> allMsgs == old(allMsgs)
      ensures code == 1 ==> allMsgs == Renumber(WithoutId(old(allMsgs), id.value))
      ensures code == 1 && IdsArePositions(old(allMsgs)) ==>
        |allMsgs| == old(|allMsgs|) - 1 && allMsgs == Renumber(old(allMsgs)[..id.value] + old(allMsgs)[id.value + 1..])
    {
      if !ValidIndex(allMsgs, id) {
        return 0;
      }
      if IdsArePositions(allMsgs) {
        DelRemovesExactlyOne(allMsgs, id.value);
      }
      allMsgs := WithoutId(allMsgs, id.value);
      allMsgs := Renumber(allMsgs);
      code := 1;
    }
  }

  /** The separator the catch-all `/test/` route splits the URL on. */
  const TestSep: string := "/test/"

  /** `pat` occurs in `s` starting at position `k`. */
  predicate OccursAt(s: string, pat: string, k: int) {
    0 <= k && k + |pat| <= |s| && s[k..k + |pat|] == pat
  }

  /** No occurrence of `pat` in `s` starts before position `n`. */
  predicate NoOccurrenceBefore(s: string, pat: string, n: int) {
    forall k :: 0 <= k < n ==> !OccursAt(s, pat, k)
  }

  /** `k` is the first position where `pat` occurs in `s`. */
  predicate FirstOccurrence(s: string, pat: string, k: int) {
    OccursAt(s, pat, k) && NoOccurrenceBefore(s, pat, k)
  }

  /** The first occurrence of `pat` in `s` at or after `from`, if any. */
  function IndexOf(s: string, pat: string, from: nat): (r: Option<nat>)
    ensures r.Some? ==> from <= r.value && OccursAt(s, pat, r.value)
    ensures r.Some? ==> forall k :: from <= k < r.value ==> !OccursAt(s, pat, k)
    ensures r.None? ==> forall k :: from <= k ==> !OccursAt(s, pat, k)
    decreases |s| - from
  {
    if from + |pat| > |s| then None
    else if s[from..from + |pat|] == pat then Some(from)
    else IndexOf(s, pat, from + 1)
  }

  /**
   * The catch-all `/test/` route: `req.url.split("/test/")[1]`, the text between the first and the
   * second occurrence of "/test/", or to the end when there is no second one;
   * `None` (JSON `undefined`) when the URL holds no "/test/" at all.
   */
  function TestPath(url: string): (r: Option<string>)
    ensures r.None? <==> NoOccurrenceBefore(url, TestSep, |url| + 1)
    ensures r.Some? ==>
      exists i :: (FirstOccurrence(url, TestSep, i) &&
                   var rest := url[i + |TestSep|..];
                   r.value <= rest && NoOccurrenceBefore(rest, TestSep, |r.value|) &&
                   (r.value == rest || OccursAt(rest, TestSep, |r.value|)))
  {
    match IndexOf(url, TestSep, 0) {
      case None => None
      case Some(i) =>
        assert FirstOccurrence(url, TestSep, i);
        var rest := url[i + |TestSep|..];
        match IndexOf(rest, TestSep, 0) {
          case None => Some(rest)
          case Some(j) => Some(rest[..j])
        }
    }
  }

  /** A second "/test/" cuts the piece short; route matching ignores case but the split does not. */
  lemma TestPathExamples()
    ensures TestPath("/test/hi") == Some("hi")
    ensures TestPath("/test/a/test/b") == Some("a")
    ensures TestPath("/TEST/a") == None
  {
    assert "/test/hi"[0..6] == TestSep;
    assert "/test/hi"[6..] == "hi";
    var url := "/test/a/test/b";
    assert url[0..6] == TestSep;
    var rest := url[6..];
    assert rest == "a/test/b";
    assert rest[0..6][0] != TestSep[0];
    assert rest[1..7] == TestSep;
    assert IndexOf(rest, TestSep, 0) == Some(1);
    assert rest[..1] == "a";
    var upper := "/TEST/a";
    assert upper[0..6][1] != TestSep[1];
    assert upper[1..7][0] != TestSep[0];
    assert IndexOf(upper, TestSep, 0) == None;
  }

  /**
   * `get` reads by position; only while ids equal positions (after `getAll` or a
   * valid `del`) does the record it returns carry the requested id.
   */
  lemma GetByIdMatchesIdField(b: Board, i: int)
    requires IdsArePositions(b.allMsgs) && 0 <= i < |b.allMsgs|
    ensures b.GetById(Some(i)).Found? && b.GetById(Some(i)).msg.id == i
  {
  }
}
