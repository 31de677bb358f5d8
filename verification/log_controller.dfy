/** The audit-log controller: the newest entries first, at most fifty of them. */
module LogController {
  import opened Store
  import opened Http

  /** The `limit(50)` of the listing. */
  const LogLimit: nat := 50

  /** Timestamps never increase along `s`. */
  ghost predicate NewestFirst(s: seq<LogEntry>) {
    forall i, j :: 0 <= i < j < |s| ==> s[i].timestamp >= s[j].timestamp
  }

  /** Putting an entry no older than any entry of a newest-first sequence in
      front keeps it newest first. */
  lemma ConsNewestFirst(h: LogEntry, rest: seq<LogEntry>)
    requires NewestFirst(rest)
    requires forall x :: x in rest ==> x.timestamp <= h.timestamp
    ensures NewestFirst([h] + rest)
  {
    var r := [h] + rest;
    forall i, j | 0 <= i < j < |r| ensures r[i].timestamp >= r[j].timestamp {
      if i == 0 {
        assert r[j] == rest[j - 1];
      } else {
        assert r[i] == rest[i - 1] && r[j] == rest[j - 1];
      }
    }
  }

  /** Places `e` into the newest-first sequence `s`, ahead of every entry that
      is not newer than it. */
  function Insert(e: LogEntry, s: seq<LogEntry>): (r: seq<LogEntry>)
    ensures multiset(r) == multiset(s) + multiset{e}
    ensures forall x :: x in r <==> x == e || x in s
    ensures NewestFirst(s) ==> NewestFirst(r)
  {
    if |s| == 0 || e.timestamp >= s[0].timestamp then
      var r := [e] + s;
      assert NewestFirst(s) ==> NewestFirst(r) by {
        if NewestFirst(s) {
          forall x | x in s ensures x.timestamp <= e.timestamp {
            var j :| 0 <= j < |s| && s[j] == x;
            assert j == 0 || s[0].timestamp >= s[j].timestamp;
          }
          ConsNewestFirst(e, s);
        }
      }
      r
    else
      var rest := Insert(e, s[1..]);
      assert s == [s[0]] + s[1..];
      var r := [s[0]] + rest;
      assert NewestFirst(s) ==> NewestFirst(r) by {
        if NewestFirst(s) {
          forall x | x in rest ensures x.timestamp <= s[0].timestamp {
            if x != e {
              var j :| 0 <= j < |s[1..]| && s[1..][j] == x;
              assert s[j + 1] == x;
            }
          }
          assert NewestFirst(s[1..]);
          ConsNewestFirst(s[0], rest);
        }
      }
      r
  }

  /** `sort({ timestamp: -1 })`: the same entries, newest first. */
  function SortNewestFirst(s: seq<LogEntry>): (r: seq<LogEntry>)
    ensures multiset(r) == multiset(s)
    ensures NewestFirst(r)
  {
    if |s| == 0 then []
    else
      assert s == [s[0]] + s[1..];
      Insert(s[0], SortNewestFirst(s[1..]))
  }

  /** The first `k` entries of a newest-first sequence are at least as new as
      every entry after them. */
  lemma PrefixIsNewest(sorted: seq<LogEntry>, k: nat)
    requires NewestFirst(sorted) && k <= |sorted|
    ensures NewestFirst(sorted[..k])
    ensures forall e, x :: e in sorted && e !in sorted[..k] && x in sorted[..k] ==> e.timestamp <= x.timestamp
  {
    assert forall j :: 0 <= j < k ==> sorted[j] in sorted[..k] by {
      forall j | 0 <= j < k ensures sorted[j] in sorted[..k] {
        assert sorted[..k][j] == sorted[j];
      }
    }
    forall e, x | e in sorted && e !in sorted[..k] && x in sorted[..k] ensures e.timestamp <= x.timestamp {
      var j :| 0 <= j < |sorted| && sorted[j] == e;
      var i :| 0 <= i < k && sorted[..k][i] == x;
      assert sorted[..k][i] == sorted[i];
    }
  }

  /** `Log.find().sort({ timestamp: -1 }).limit(50)`. */
  function ListLogs(logs: seq<LogEntry>): (r: seq<LogEntry>)
    ensures |r| == if |logs| <= LogLimit then |logs| else LogLimit
    ensures NewestFirst(r)
    ensures multiset(r) <= multiset(logs)
    ensures |logs| <= LogLimit ==> multiset(r) == multiset(logs)
    ensures forall e, x :: e in logs && e !in r && x in r ==> e.timestamp <= x.timestamp
  {
    var sorted := SortNewestFirst(logs);
    var k := if |sorted| <= LogLimit then |sorted| else LogLimit;
    var r := sorted[..k];
    assert sorted == r + sorted[k..];
    assert multiset(sorted) == multiset(r) + multiset(sorted[k..]);
    PrefixIsNewest(sorted, k);
    assert forall e :: e in logs <==> e in sorted by {
      forall e ensures e in logs <==> e in sorted {
        assert e in logs <==> e in multiset(logs);
        assert e in sorted <==> e in multiset(sorted);
      }
    }
    r
  }

  /** The `listLogs` handler; it only reads the store and replies with the
      newest entries, all of them when there are at most `LogLimit`. */
  function ListLogsHandler(db: Db): (h: Handled)
    ensures h.db == db && h.response.status == 200 && h.response.body.LogList?
    ensures |h.response.body.logs| == if |db.logs| <= LogLimit then |db.logs| else LogLimit
    ensures NewestFirst(h.response.body.logs)
    ensures forall e :: e in h.response.body.logs ==> e in db.logs
    ensures multiset(h.response.body.logs) <= multiset(db.logs)
    ensures |db.logs| <= LogLimit ==> multiset(h.response.body.logs) == multiset(db.logs)
    ensures forall e, x :: e in db.logs && e !in h.response.body.logs && x in h.response.body.logs ==>
      e.timestamp <= x.timestamp
  {
    var r := ListLogs(db.logs);
    assert forall e :: e in r ==> e in db.logs by {
      forall e | e in r ensures e in db.logs {
        assert e in multiset(r);
      }
    }
    Handled(Response(200, LogList(r)), db)
  }
}
