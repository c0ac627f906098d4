/** Properties of the registry's list operations: how Close, Add and Update
    relate to each other, what they leave in order, and which of them keep
    thread ids unique. */
module ConnectionProperties {
  import opened Wrappers
  import opened Clock
  import opened Connections

  lemma {:induction false} CountConcat(a: seq<Connection>, b: seq<Connection>, threadId: int)
    ensures Count(a + b, threadId) == Count(a, threadId) + Count(b, threadId)
  {
    if b != [] {
      CountConcat(a, b[..|b| - 1], threadId);
      assert (a + b)[..|a + b| - 1] == a + b[..|b| - 1];
    } else {
      assert a + b == a;
    }
  }

  lemma {:induction false} CountZero(s: seq<Connection>, threadId: int)
    ensures Count(s, threadId) == 0 <==> forall i :: 0 <= i < |s| ==> s[i].threadId != threadId
  {
    if s != [] {
      CountZero(s[..|s| - 1], threadId);
      assert forall i :: 0 <= i < |s| - 1 ==> s[..|s| - 1][i] == s[i];
    }
  }

  /** Filtering distributes over concatenation: Close keeps the relative
      order of the records it keeps. */
  lemma {:induction false} WithoutConcat(a: seq<Connection>, b: seq<Connection>, threadId: int)
    ensures Without(a + b, threadId) == Without(a, threadId) + Without(b, threadId)
  {
    if b == [] {
      assert a + b == a;
    } else {
      WithoutConcat(a, b[..|b| - 1], threadId);
      assert (a + b)[..|a + b| - 1] == a + b[..|b| - 1];
    }
  }

  /** Close keeps exactly the records of other threads. */
  lemma {:induction false} WithoutContents(s: seq<Connection>, threadId: int)
    ensures forall c :: c in Without(s, threadId) <==> c in s && c.threadId != threadId
  {
    if s != [] {
      var init := s[..|s| - 1];
      WithoutContents(init, threadId);
      assert s == init + [s[|s| - 1]];
    }
  }

  /** Close on a thread that has no record leaves the list unchanged. */
  lemma {:induction false} WithoutAbsent(s: seq<Connection>, threadId: int)
    requires forall i :: 0 <= i < |s| ==> s[i].threadId != threadId
    ensures Without(s, threadId) == s
  {
    if s != [] {
      WithoutAbsent(s[..|s| - 1], threadId);
      assert s[..|s| - 1] + [s[|s| - 1]] == s;
    }
  }

  /** Close is idempotent. */
  lemma CloseIdempotent(s: seq<Connection>, threadId: int)
    ensures Without(Without(s, threadId), threadId) == Without(s, threadId)
  {
    WithoutAbsent(Without(s, threadId), threadId);
  }

  /** Close removes none of the records of other threads. */
  lemma {:induction false} CloseKeepsOtherThreads(s: seq<Connection>, threadId: int, other: int)
    requires other != threadId
    ensures Count(Without(s, threadId), other) == Count(s, other)
  {
    if s != [] {
      var init := s[..|s| - 1];
      var last := s[|s| - 1];
      CloseKeepsOtherThreads(init, threadId, other);
      if last.threadId != threadId {
        CountConcat(Without(init, threadId), [last], other);
        assert Count([last], other) == (if last.threadId == other then 1 else 0) by {
          assert [last][..0] == [];
        }
      }
    }
  }

  lemma CountSingleton(c: Connection, threadId: int)
    ensures Count([c], threadId) == CountOne(c, threadId)
  {
    assert [c][..0] == [];
  }

  /** Add appends a record even when the thread already has one: the
      registry does not deduplicate thread ids. */
  lemma AddDoesNotDeduplicate(s: seq<Connection>, threadId: int, req: HttpRequest, startTime: DateTime, endTime: DateTime, other: int)
    ensures Count(s + [Opened(threadId, req, startTime, endTime)], threadId) == Count(s, threadId) + 1
    ensures other != threadId ==> Count(s + [Opened(threadId, req, startTime, endTime)], other) == Count(s, other)
  {
    CountConcat(s, [Opened(threadId, req, startTime, endTime)], threadId);
    CountConcat(s, [Opened(threadId, req, startTime, endTime)], other);
    CountSingleton(Opened(threadId, req, startTime, endTime), threadId);
    CountSingleton(Opened(threadId, req, startTime, endTime), other);
  }

  /** Close undoes Add: closing the thread just added leaves what closing it
      before the Add would have left. */
  lemma CloseUndoesAdd(s: seq<Connection>, threadId: int, req: HttpRequest, startTime: DateTime, endTime: DateTime)
    ensures Without(s + [Opened(threadId, req, startTime, endTime)], threadId) == Without(s, threadId)
  {
    WithoutConcat(s, [Opened(threadId, req, startTime, endTime)], threadId);
    assert [Opened(threadId, req, startTime, endTime)][..0] == [];
  }

  /** Update neither adds nor removes a record of any thread. */
  lemma UpdateKeepsCounts(s: seq<Connection>, threadId: int, hostName: Option<string>,
                          httpHostName: Option<string>, nodeName: Option<string>, other: int)
    ensures Count(Updated(s, threadId, hostName, httpHostName, nodeName), other) == Count(s, other)
  {
    match FirstIndex(s, threadId)
    case None =>
    case Some(i) =>
      var moved := Routed(s[i], hostName, httpHostName, nodeName);
      assert s == s[..i] + [s[i]] + s[i + 1..];
      CountConcat(s[..i] + [s[i]], s[i + 1..], other);
      CountConcat(s[..i], [s[i]], other);
      CountConcat(s[..i] + s[i + 1..], [moved], other);
      CountConcat(s[..i], s[i + 1..], other);
      CountSingleton(s[i], other);
      CountSingleton(moved, other);
  }

  /** Closing a thread after updating it leaves what closing it directly
      would have left: Update touches no other thread's record. */
  lemma CloseAfterUpdate(s: seq<Connection>, threadId: int, hostName: Option<string>,
                         httpHostName: Option<string>, nodeName: Option<string>)
    ensures Without(Updated(s, threadId, hostName, httpHostName, nodeName), threadId) == Without(s, threadId)
  {
    match FirstIndex(s, threadId)
    case None =>
    case Some(i) =>
      var moved := Routed(s[i], hostName, httpHostName, nodeName);
      assert s == s[..i] + [s[i]] + s[i + 1..];
      WithoutConcat(s[..i] + [s[i]], s[i + 1..], threadId);
      WithoutConcat(s[..i], [s[i]], threadId);
      WithoutConcat(s[..i] + s[i + 1..], [moved], threadId);
      WithoutConcat(s[..i], s[i + 1..], threadId);
      assert [s[i]][..0] == [] && [moved][..0] == [];
  }

  // ---------------------------------------------------------------------
  // At most one record per thread id

  ghost predicate UniqueThreadIds(s: seq<Connection>)
  {
    forall i, j :: 0 <= i < j < |s| ==> s[i].threadId != s[j].threadId
  }

  /** Add keeps thread ids unique exactly when the thread has no record yet. */
  lemma AddKeepsUniqueIff(s: seq<Connection>, threadId: int, req: HttpRequest, startTime: DateTime, endTime: DateTime)
    requires UniqueThreadIds(s)
    ensures UniqueThreadIds(s + [Opened(threadId, req, startTime, endTime)]) <==> Count(s, threadId) == 0
  {
    var t := s + [Opened(threadId, req, startTime, endTime)];
    CountZero(s, threadId);
    if Count(s, threadId) != 0 {
      var i :| 0 <= i < |s| && s[i].threadId == threadId;
      assert t[i].threadId == t[|s|].threadId;
    }
  }

  lemma {:induction false} CloseKeepsUnique(s: seq<Connection>, threadId: int)
    requires UniqueThreadIds(s)
    ensures UniqueThreadIds(Without(s, threadId))
  {
    if s != [] {
      var init := s[..|s| - 1];
      var last := s[|s| - 1];
      CloseKeepsUnique(init, threadId);
      var w := Without(init, threadId);
      WithoutContents(init, threadId);
      if last.threadId != threadId {
        forall k | 0 <= k < |w| ensures w[k].threadId != last.threadId {
          assert w[k] in init;
          var m :| 0 <= m < |init| && init[m] == w[k];
          assert s[m] == w[k];
        }
      }
    }
  }

  lemma UpdateKeepsUnique(s: seq<Connection>, threadId: int, hostName: Option<string>,
                          httpHostName: Option<string>, nodeName: Option<string>)
    requires UniqueThreadIds(s)
    ensures UniqueThreadIds(Updated(s, threadId, hostName, httpHostName, nodeName))
  {
    match FirstIndex(s, threadId)
    case None =>
    case Some(i) =>
      var r := Updated(s, threadId, hostName, httpHostName, nodeName);
      // r[a] is s[a] before i and s[a + 1] from i on, up to |s| - 1
      forall a, b | 0 <= a < b < |r| ensures r[a].threadId != r[b].threadId {
        var sa := if a < i then a else a + 1;
        assert r[a] == s[sa];
        if b < |s| - 1 {
          var sb := if b < i then b else b + 1;
          assert r[b] == s[sb];
        } else {
          assert r[b].threadId == s[i].threadId;
          assert sa != i;
        }
      }
  }
}
