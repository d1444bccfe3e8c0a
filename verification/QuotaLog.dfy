/** The call log as one client uses it: reserve, give back, and settle what was really sent. */
module QuotaLog {
  import opened Options
  import opened QuotaProtocol

  datatype Request = Request(provider: string, model: string)

  /** Everything the user has on the log today. */
  function UsedToday(rows: Rows, user: nat, today: nat): set<nat> {
    set j | j in rows && rows[j].user == user && rows[j].day >= today
  }

  /** The n ids from `first` on. */
  function Span(first: nat, n: nat): (ids: set<nat>)
    ensures |ids| == n
    ensures forall j :: j in ids <==> first <= j < first + n
  {
    if n == 0 then {} else Span(first, n - 1) + {first + n - 1}
  }

  lemma OneMoreRow(rows: Rows, first: nat, n: nat, row: Row)
    ensures WithRows(rows, Span(first, n + 1), row) == WithRows(rows, Span(first, n), row)[first + n := row]
  {
  }

  lemma NoMoreRows(rows: Rows, first: nat, row: Row)
    ensures WithRows(rows, Span(first, 0), row) == rows
  {
  }

  /** The columns of consecutive new rows, one request each. */
  function Filled(requests: map<nat, Request>, first: nat, sent: seq<Request>): map<nat, Request> {
    if sent == [] then requests
    else Filled(requests, first, sent[..|sent| - 1])[first + |sent| - 1 := sent[|sent| - 1]]
  }

  /** Every new row carries its own request, and no other row is touched. */
  lemma {:induction false} FilledOneForOne(requests: map<nat, Request>, first: nat, sent: seq<Request>, id: nat)
    ensures first <= id < first + |sent| ==>
      id in Filled(requests, first, sent) && Filled(requests, first, sent)[id] == sent[id - first]
    ensures !(first <= id < first + |sent|) ==>
      && (id in Filled(requests, first, sent) <==> id in requests)
      && (id in requests ==> Filled(requests, first, sent)[id] == requests[id])
  {
    if sent != [] {
      FilledOneForOne(requests, first, sent[..|sent| - 1], id);
    }
  }

  class CallLog {
    var rows: Rows
    var requests: map<nat, Request>

    constructor ()
      ensures rows == map[] && requests == map[]
    {
      rows, requests := map[], map[];
    }

    /** Takes a row back; a delete that fails leaves it. */
    method Cancel(id: nat, fails: bool)
      modifies this`rows
      ensures rows == Remove(old(rows), id, !fails)
    {
      if !fails {
        rows := rows - {id};
      }
    }

    /** Alone, a reservation is granted exactly when fewer than `cap` calls are on today's log. */
    method Reserve(user: nat, cap: nat, today: nat, id: nat, fails: bool) returns (held: Option<nat>)
      requires Fresh(rows, id)
      modifies this`rows
      ensures held == (if cap == 0 || |UsedToday(old(rows), user, today)| < cap then Some(id) else None)
      ensures held.Some? ==> rows == old(rows)[id := Row(user, today)]
      ensures held.None? ==> rows == if fails then old(rows)[id := Row(user, today)] else old(rows)
    {
      ghost var before := rows;
      rows := rows[id := Row(user, today)];
      if cap != 0 {
        var rank := Rank(rows, user, today, id);
        assert Counted(rows, user, today, id) == UsedToday(before, user, today) + {id};
        if rank > cap {
          Cancel(id, fails);
          assert before == before[id := Row(user, today)] - {id};
          return None;
        }
      }
      return Some(id);
    }

    /**
     * One row for each request that went out: the reservation carries the first, new rows the
     * others. All are committed together or none is.
     */
    method Reconcile(user: nat, today: nat, sent: seq<Request>, reservation: Option<nat>, first: nat, fails: bool)
      returns (written: nat)
      requires Fresh(rows, first)
      requires reservation.Some? ==> reservation.value in rows
      modifies this
      ensures fails || sent == [] ==> written == 0 && rows == old(rows) && requests == old(requests)
      ensures !fails && sent != [] ==>
        var skip := if reservation.Some? then 1 else 0;
        && written == |sent| - skip
        && rows == WithRows(old(rows), Span(first, written), Row(user, today))
        && requests == Filled(if reservation.Some? then old(requests)[reservation.value := sent[0]] else old(requests),
                              first, sent[skip..])
    {
      hide WithRows, Span;
      written := 0;
      if sent == [] {
        return;
      }
      var newRows, newRequests: map<nat, Request> := rows, requests;
      var skip := 0;
      if reservation.Some? {
        newRequests := newRequests[reservation.value := sent[0]];
        skip := 1;
      }
      ghost var base := newRequests;
      NoMoreRows(rows, first, Row(user, today));
      for i := skip to |sent|
        invariant written == i - skip && rows == old(rows) && requests == old(requests)
        invariant newRows == WithRows(rows, Span(first, written), Row(user, today))
        invariant newRequests == Filled(base, first, sent[skip..i])
      {
        assert sent[skip..i + 1][..written] == sent[skip..i];
        OneMoreRow(rows, first, written, Row(user, today));
        newRows := newRows[first + written := Row(user, today)];
        newRequests := newRequests[first + written := sent[i]];
        written := written + 1;
      }
      assert sent[skip..|sent|] == sent[skip..];
      if fails {
        written := 0;
        return;
      }
      rows, requests := newRows, newRequests;
    }
  }

  function Times(sent: seq<Request>, provider: string): nat {
    if sent == [] then 0
    else Times(sent[..|sent| - 1], provider) + if sent[|sent| - 1].provider == provider then 1 else 0
  }

  /** Requests per provider; a provider is listed exactly when it was called. */
  method Tally(sent: seq<Request>) returns (counts: map<string, nat>)
    ensures forall p :: p in counts <==> Times(sent, p) > 0
    ensures forall p :: p in counts ==> counts[p] == Times(sent, p)
  {
    counts := map[];
    for i := 0 to |sent|
      invariant forall p :: p in counts <==> Times(sent[..i], p) > 0
      invariant forall p :: p in counts ==> counts[p] == Times(sent[..i], p)
    {
      assert sent[..i + 1][..i] == sent[..i];
      var p := sent[i].provider;
      counts := counts[p := (if p in counts then counts[p] else 0) + 1];
    }
    assert sent[..|sent|] == sent;
  }

  /** A reservation and its settlement add one row for each request that was sent. */
  lemma SettledUse(rows: Rows, user: nat, today: nat, id: nat, first: nat, n: nat)
    requires Fresh(rows, id) && Fresh(rows[id := Row(user, today)], first)
    ensures var settled := WithRows(rows[id := Row(user, today)], Span(first, n), Row(user, today));
            |UsedToday(settled, user, today)| == |UsedToday(rows, user, today)| + 1 + n
  {
    hide WithRows, UsedToday;
    var settled := WithRows(rows[id := Row(user, today)], Span(first, n), Row(user, today));
    var base := UsedToday(rows, user, today);
    SettledRows(rows, user, today, id, first, n);
    assert |(base + {id}) + Span(first, n)| == |base + {id}| + |Span(first, n)|;
  }

  lemma SettledRows(rows: Rows, user: nat, today: nat, id: nat, first: nat, n: nat)
    requires Fresh(rows, id) && Fresh(rows[id := Row(user, today)], first)
    ensures var settled := WithRows(rows[id := Row(user, today)], Span(first, n), Row(user, today));
            UsedToday(settled, user, today) == (UsedToday(rows, user, today) + {id}) + Span(first, n)
    ensures id !in UsedToday(rows, user, today) && (UsedToday(rows, user, today) + {id}) !! Span(first, n)
  {
    hide Span, WithRows, UsedToday;
    var settled := WithRows(rows[id := Row(user, today)], Span(first, n), Row(user, today));
    forall j: nat
      ensures j in UsedToday(settled, user, today) <==>
        j in UsedToday(rows, user, today) || j == id || j in Span(first, n)
      ensures j in UsedToday(rows, user, today) + {id} ==> j !in Span(first, n)
      ensures id !in UsedToday(rows, user, today)
    {
      SettledRow(rows, user, today, id, first, n, j);
    }
  }

  lemma SettledRow(rows: Rows, user: nat, today: nat, id: nat, first: nat, n: nat, j: nat)
    requires Fresh(rows, id) && Fresh(rows[id := Row(user, today)], first)
    ensures var settled := WithRows(rows[id := Row(user, today)], Span(first, n), Row(user, today));
            j in UsedToday(settled, user, today) <==>
              j in UsedToday(rows, user, today) || j == id || j in Span(first, n)
    ensures j in UsedToday(rows, user, today) + {id} ==> j !in Span(first, n)
    ensures id !in UsedToday(rows, user, today)
  {
    hide Span;
    assert id in rows[id := Row(user, today)];
  }
}
