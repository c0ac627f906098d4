/** The connection registry: the list of in-flight requests, one record per
    Add, that request handlers add to, update and close.

    Its lock only makes each operation atomic, so the model is sequential.
    Records are values: the list the registry hands out is equal to its own
    list, not a list of shared references. */
module Connections {
  import opened Wrappers
  import opened Clock

  /** The parts of an incoming HTTP request that Add records. */
  datatype HttpRequest = HttpRequest(sourceIp: string, sourcePort: int, httpMethod: string, rawUrlWithoutQuery: string)

  datatype Connection = Connection(
    threadId: int,
    sourceIp: string,
    sourcePort: int,
    httpMethod: string,
    rawUrl: string,
    hostName: Option<string>,
    httpHostName: Option<string>,
    nodeName: Option<string>,
    startTime: DateTime,
    endTime: DateTime)

  /** The record Add creates: routing fields unset, start and end time two
      clock readings. */
  function Opened(threadId: int, req: HttpRequest, startTime: DateTime, endTime: DateTime): Connection
  {
    Connection(threadId, req.sourceIp, req.sourcePort, req.httpMethod, req.rawUrlWithoutQuery,
               None, None, None, startTime, endTime)
  }

  /** The routing fields Update replaces; every other field is kept. */
  function Routed(c: Connection, hostName: Option<string>, httpHostName: Option<string>,
                  nodeName: Option<string>): Connection
  {
    c.(hostName := hostName, httpHostName := httpHostName, nodeName := nodeName)
  }

  /** Whether one record belongs to a thread, as a count. */
  function CountOne(c: Connection, threadId: int): nat
  {
    if c.threadId == threadId then 1 else 0
  }

  /** The number of records for a thread. */
  function Count(s: seq<Connection>, threadId: int): nat
  {
    if s == [] then 0
    else Count(s[..|s| - 1], threadId) + CountOne(s[|s| - 1], threadId)
  }

  /** Where(x => x.ThreadId != threadId).ToList(): the records of other
      threads, in their order. */
  function Without(s: seq<Connection>, threadId: int): (r: seq<Connection>)
    ensures |r| == |s| - Count(s, threadId)
    ensures forall i :: 0 <= i < |r| ==> r[i].threadId != threadId
  {
    if s == [] then []
    else
      var init := Without(s[..|s| - 1], threadId);
      var last := s[|s| - 1];
      if last.threadId == threadId then init else init + [last]
  }

  /** FirstOrDefault(i => i.ThreadId == threadId), as the index it is found at. */
  function FirstIndex(s: seq<Connection>, threadId: int): (r: Option<nat>)
    ensures r.None? <==> forall i :: 0 <= i < |s| ==> s[i].threadId != threadId
    ensures r.Some? ==> r.value < |s| && s[r.value].threadId == threadId
    ensures r.Some? ==> forall j :: 0 <= j < r.value ==> s[j].threadId != threadId
  {
    if s == [] then None
    else if s[0].threadId == threadId then Some(0)
    else
      match FirstIndex(s[1..], threadId)
      case None => None
      case Some(i) => Some(i + 1)
  }

  /** List.Remove(x): drops the first record equal to x, if there is one. */
  function RemoveFirst(s: seq<Connection>, x: Connection): (r: seq<Connection>)
    ensures x !in s ==> r == s
    ensures x in s ==> |r| == |s| - 1
  {
    if s == [] then []
    else if s[0] == x then s[1..]
    else [s[0]] + RemoveFirst(s[1..], x)
  }

  /** What Update makes of the list: the first record of the thread, with its
      routing fields replaced, moved to the end. */
  function Updated(s: seq<Connection>, threadId: int, hostName: Option<string>,
                   httpHostName: Option<string>, nodeName: Option<string>): (r: seq<Connection>)
    ensures |r| == |s|
    ensures FirstIndex(s, threadId).None? ==> r == s
    ensures FirstIndex(s, threadId).Some? ==>
      var i := FirstIndex(s, threadId).value;
      && r[..|s| - 1] == s[..i] + s[i + 1..]
      && r[|s| - 1] == s[i].(hostName := hostName, httpHostName := httpHostName, nodeName := nodeName)
      && r[|s| - 1].threadId == threadId
  {
    match FirstIndex(s, threadId)
    case None => s
    case Some(i) => s[..i] + s[i + 1..] + [Routed(s[i], hostName, httpHostName, nodeName)]
  }

  class ConnectionManager {
    var connections: seq<Connection>

    constructor()
      ensures connections == []
    {
      connections := [];
    }

    method Add(threadId: int, req: Option<HttpRequest>, startTime: DateTime, endTime: DateTime)
      modifies this
      ensures threadId <= 0 || req.None? ==> connections == old(connections)
      ensures threadId > 0 && req.Some? ==>
        connections == old(connections) + [Opened(threadId, req.value, startTime, endTime)]
    {
      if threadId <= 0 { return; }
      if req.None? { return; }
      var conn := Opened(threadId, req.value, startTime, endTime);
      connections := connections + [conn];
    }

    method Close(threadId: int)
      modifies this
      ensures threadId <= 0 ==> connections == old(connections)
      ensures threadId > 0 ==> connections == Without(old(connections), threadId)
    {
      if threadId <= 0 { return; }
      connections := Without(connections, threadId);
    }

    method Update(threadId: int, hostName: Option<string>, httpHostName: Option<string>, nodeName: Option<string>)
      modifies this
      ensures threadId <= 0 ==> connections == old(connections)
      ensures threadId > 0 ==> connections == Updated(old(connections), threadId, hostName, httpHostName, nodeName)
    {
      if threadId <= 0 { return; }
      var found := FirstIndex(connections, threadId);
      if found.None? {
        // logged as a warning: no connection on this thread
        return;
      }
      var curr := connections[found.value];
      RemoveFirstAt(connections, found.value);
      connections := RemoveFirst(connections, curr);
      curr := Routed(curr, hostName, httpHostName, nodeName);
      connections := connections + [curr];
    }

    method GetActiveConnections() returns (snapshot: seq<Connection>)
      ensures snapshot == connections
    {
      snapshot := connections;
    }
  }

  /** Removing the first record equal to s[i] removes s[i] when no earlier
      record belongs to the same thread. */
  lemma {:induction false} RemoveFirstAt(s: seq<Connection>, i: nat)
    requires i < |s|
    requires forall j :: 0 <= j < i ==> s[j].threadId != s[i].threadId
    ensures RemoveFirst(s, s[i]) == s[..i] + s[i + 1..]
  {
    if i > 0 {
      RemoveFirstAt(s[1..], i - 1);
      assert s[1..][i - 1] == s[i];
      assert s[1..][..i - 1] + s[1..][i..] == s[1..i] + s[i + 1..];
      assert [s[0]] + s[1..i] == s[..i];
    }
  }
}
