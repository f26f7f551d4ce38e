/** The loop with which `receive()` copies the received headers into the response. */
module HeaderLoop {
  import opened Text
  import opened OrderedMap
  import opened Responses
  import opened Parser

  /** One round of the loop. A length that is not a number ends it. */
  function Round(setup: HeaderSetup, key: string, value: string): HeaderSetup {
    var headers := Insert(setup.headers, key, value);
    if !setup.ok then setup
    else if key != CONTENT_LENGTH then setup.(headers := headers)
    else match CastInt(value)
      case None => setup.(headers := headers, ok := false)
      case Some(size) => setup.(headers := headers, bodySize := ToSize(size))
  }

  function LengthOf(temp: Headers): string {
    if CONTENT_LENGTH in temp then temp[CONTENT_LENGTH] else ""
  }

  /** The state of the loop after `n` rounds: the headers passed so far lie below those
      that were there, up to Content-Length when its value is not a number. */
  ghost function Rounds(before: Headers, bodySize: nat, temp: Headers, n: nat): HeaderSetup
    requires n <= |InOrder(temp.Keys)|
  {
    if CONTENT_LENGTH !in InOrder(temp.Keys)[..n] then HeaderSetup(Visited(temp, n) + before, bodySize, true)
    else match CastInt(LengthOf(temp))
      case None => HeaderSetup(UpToLength(temp) + before, bodySize, false)
      case Some(size) => HeaderSetup(Visited(temp, n) + before, ToSize(size), true)
  }

  lemma RoundsStart(before: Headers, bodySize: nat, temp: Headers)
    ensures Rounds(before, bodySize, temp, 0) == HeaderSetup(before, bodySize, true)
  {
    VisitedAll(temp);
    PlusEmpty(before);
  }

  lemma RoundFollows(before: Headers, bodySize: nat, temp: Headers, n: nat)
    requires n < |InOrder(temp.Keys)|
    ensures var key := InOrder(temp.Keys)[n];
      key in temp && Round(Rounds(before, bodySize, temp, n), key, temp[key]) == Rounds(before, bodySize, temp, n + 1)
  {
    var key := InOrder(temp.Keys)[n];
    VisitNext(temp, before, n);
    VisitedKey(temp, n, CONTENT_LENGTH);
    NotYetVisited(temp, n, n);
    if key == CONTENT_LENGTH {
      RoundOfLength(before, bodySize, temp, n);
    } else if CONTENT_LENGTH in InOrder(temp.Keys)[..n] {
      RoundAfterLength(before, bodySize, temp, n, key);
    }
  }

  lemma VisitedLength(temp: Headers, n: nat)
    requires n < |InOrder(temp.Keys)| && InOrder(temp.Keys)[n] == CONTENT_LENGTH
    ensures Visited(temp, n + 1) == UpToLength(temp)
  {
    VisitedUpTo(temp, n);
  }

  lemma RoundOfLength(before: Headers, bodySize: nat, temp: Headers, n: nat)
    requires n < |InOrder(temp.Keys)| && InOrder(temp.Keys)[n] == CONTENT_LENGTH && CONTENT_LENGTH in temp
    requires CONTENT_LENGTH !in InOrder(temp.Keys)[..n] && CONTENT_LENGTH in InOrder(temp.Keys)[..n + 1]
    requires Insert(Visited(temp, n) + before, CONTENT_LENGTH, temp[CONTENT_LENGTH]) == Visited(temp, n + 1) + before
    ensures Round(Rounds(before, bodySize, temp, n), CONTENT_LENGTH, temp[CONTENT_LENGTH])
         == Rounds(before, bodySize, temp, n + 1)
  {
    VisitedLength(temp, n);
  }

  lemma RoundAfterLength(before: Headers, bodySize: nat, temp: Headers, n: nat, key: string)
    requires n < |InOrder(temp.Keys)| && key in temp && key != CONTENT_LENGTH
    requires CONTENT_LENGTH in InOrder(temp.Keys)[..n] && CONTENT_LENGTH in InOrder(temp.Keys)[..n + 1]
    requires Insert(Visited(temp, n) + before, key, temp[key]) == Visited(temp, n + 1) + before
    ensures Round(Rounds(before, bodySize, temp, n), key, temp[key]) == Rounds(before, bodySize, temp, n + 1)
  {
  }

  /** After the last round, or one that has thrown, the loop has done what the parser's
      specification says. */
  lemma RoundsDecide(before: Headers, bodySize: nat, temp: Headers, n: nat)
    requires n <= |InOrder(temp.Keys)|
    requires n == |InOrder(temp.Keys)| || !Rounds(before, bodySize, temp, n).ok
    ensures Rounds(before, bodySize, temp, n) == Setup(before, bodySize, temp)
  {
    var ks := InOrder(temp.Keys);
    VisitedAll(temp);
    assert ks[..|ks|] == ks;
    assert forall k :: k in ks[..n] ==> k in ks;
  }

  /** One round: copies a header, and takes the body size from Content-Length. */
  method InsertHeader(response: HttpResponse, key: string, value: string) returns (ok: bool)
    modifies response`headers, response`bodySize
    ensures HeaderSetup(response.headers, response.bodySize, ok) ==
            Round(HeaderSetup(old(response.headers), old(response.bodySize), true), key, value)
  {
    response.SetHeaders(key, value);
    if key == CONTENT_LENGTH {
      var n := CastInt(value);
      if n.None? {
        return false;
      }
      response.bodySize := ToSize(n.value);
    }
    return true;
  }

  method InsertHeaders(response: HttpResponse, temp: Headers) returns (ok: bool)
    modifies response`headers, response`bodySize
    ensures HeaderSetup(response.headers, response.bodySize, ok) ==
            Setup(old(response.headers), old(response.bodySize), temp)
  {
    var keys := InOrder(temp.Keys);
    ghost var before, size := response.headers, response.bodySize;
    ghost var setup := HeaderSetup(before, size, true);
    var i := 0;
    RoundsStart(before, size, temp);
    while i < |keys|
      invariant 0 <= i <= |keys|
      invariant setup == Rounds(before, size, temp, i)
      invariant setup == HeaderSetup(response.headers, response.bodySize, true)
    {
      RoundFollows(before, size, temp, i);
      ok := InsertHeader(response, keys[i], temp[keys[i]]);
      setup := HeaderSetup(response.headers, response.bodySize, ok);
      i := i + 1;
      if !ok {
        RoundsDecide(before, size, temp, i);
        return false;
      }
    }
    RoundsDecide(before, size, temp, i);
    return true;
  }
}
