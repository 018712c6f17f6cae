/**
 The sales section: building a sale from the form, merging the server's list
 with the locally pending sales, queueing a sale that could not be sent (with
 near-duplicate suppression), the retry pass over the pending queue, the
 initial load, and the optimistic submit.

 Every awaited result (the send outcome, the refreshed list, the storage
 write) is an input.
 */
module Ventas {
  import opened JsValues
  import opened Text
  import opened Seqs
  import opened Sales
  import opened Utils
  import opened Ui
  import Api
  import Config

  // ---------------------------------------------------------------------------
  // Building a sale from the form
  // ---------------------------------------------------------------------------

  /** The raw text of the form fields. */
  datatype SaleForm = SaleForm(
    producto: string,
    referencia: string,
    descripcion: string,
    precio: string,
    precioFinal: string)

  /** `parseFloat(x) || 0`: zero and NaN both become 0. */
  function NumberOrZero(n: Number): (r: Number)
    ensures r.Int?
    ensures n.Int? ==> r == n
    ensures n.NaN? ==> r == Int(0)
  {
    if n.Int? && n.i != 0 then n else Int(0)
  }

  /**
   `createVentaFromForm`: text fields trimmed, prices parsed with `parse`
   (the engine's `parseFloat`), the final price falling back to the parsed
   price field when left blank, and date, time, id and timestamp taken from
   the clock readings given.
   */
  function CreateVentaFromForm(form: SaleForm, parse: string -> Number, now: DateTime, idMs: int, stampMs: int): (v: Sale)
    ensures v.producto == Trim(form.producto) && v.referencia == Trim(form.referencia)
    ensures v.descripcion == Trim(form.descripcion)
    ensures v.precio.Int? && (parse(form.precio).Int? ==> v.precio == parse(form.precio))
    ensures parse(form.precio).NaN? ==> v.precio == Int(0)
    ensures form.precioFinal != "" ==> v.precioFinal == parse(form.precioFinal)
    ensures form.precioFinal == "" ==> v.precioFinal == parse(form.precio)
    ensures v.id == Num(Int(idMs)) && v.timestamp == stampMs
    ensures v.fecha == FormatDateLocal(now) && v.hora == FormatTimeLocal(now)
  {
    Sale(
      Num(Int(idMs)),
      Trim(form.producto),
      Trim(form.referencia),
      Trim(form.descripcion),
      NumberOrZero(parse(form.precio)),
      if form.precioFinal != "" then parse(form.precioFinal) else parse(form.precio),
      FormatDateLocal(now),
      FormatTimeLocal(now),
      stampMs)
  }

  /**
   With the final price left blank, it equals the price when the price field
   parses; when it does not, the price becomes 0 but the final price is NaN,
   because the fallback re-parses the field without the `|| 0` default.
   */
  lemma PrecioFinalFallback(form: SaleForm, parse: string -> Number, now: DateTime, idMs: int, stampMs: int)
    requires form.precioFinal == ""
    ensures var v := CreateVentaFromForm(form, parse, now, idMs, stampMs);
      && (parse(form.precio).Int? ==> v.precioFinal == v.precio)
      && (parse(form.precio).NaN? ==> v.precio == Int(0) && v.precioFinal == NaN)
  {
  }

  // ---------------------------------------------------------------------------
  // mergeAndDeduplicateVentas
  // ---------------------------------------------------------------------------

  /**
   The first sale of each id not already in `seen`, in order. This is the
   reference for the merge: it keeps no two sales with one id, covers every
   id of the input outside `seen`, and only drops sales.
   */
  function KeepFirst(s: seq<Sale>, seen: set<Value>): (r: seq<Sale>)
    ensures DistinctIds(r)
    ensures Ids(r) == Ids(s) - seen
    ensures IsSubsequence(r, s)
    decreases |s|
  {
    if |s| == 0 then []
    else if s[0].id in seen then
      var r := KeepFirst(s[1..], seen);
      SubsequenceFromTail(r, s);
      r
    else
      var rest := KeepFirst(s[1..], seen + {s[0].id});
      SubsequenceCons(s[0], rest, s[1..]);
      assert [s[0]] + s[1..] == s;
      assert ([s[0]] + rest)[1..] == rest;
      [s[0]] + rest
  }

  /** The merged list: server sales first, then local ones, first occurrence of each id. */
  function Merge(server: seq<Sale>, local: seq<Sale>): seq<Sale> {
    KeepFirst(server + local, {})
  }

  lemma {:induction false} IdsAppend(a: seq<Sale>, b: seq<Sale>)
    ensures Ids(a + b) == Ids(a) + Ids(b)
    decreases |a|
  {
    if |a| == 0 {
      assert a + b == b;
    } else {
      assert (a + b)[1..] == a[1..] + b;
      IdsAppend(a[1..], b);
    }
  }

  /** Deduplicating a concatenation: the second part is deduplicated against the ids of the first. */
  lemma {:induction false} KeepFirstAppend(a: seq<Sale>, b: seq<Sale>, seen: set<Value>)
    ensures KeepFirst(a + b, seen) == KeepFirst(a, seen) + KeepFirst(b, seen + Ids(a))
    decreases |a|
  {
    if |a| == 0 {
      assert a + b == b;
      assert seen + Ids(a) == seen;
    } else {
      assert (a + b)[0] == a[0];
      assert (a + b)[1..] == a[1..] + b;
      if a[0].id in seen {
        KeepFirstAppend(a[1..], b, seen);
        assert seen + Ids(a) == seen + Ids(a[1..]);
      } else {
        KeepFirstAppend(a[1..], b, seen + {a[0].id});
        assert seen + {a[0].id} + Ids(a[1..]) == seen + Ids(a);
      }
    }
  }

  /** A list with distinct ids, none of them seen, is kept whole. */
  lemma {:induction false} KeepFirstDistinct(s: seq<Sale>, seen: set<Value>)
    requires DistinctIds(s) && Ids(s) !! seen
    ensures KeepFirst(s, seen) == s
    decreases |s|
  {
    if |s| > 0 {
      DistinctHead(s);
      KeepFirstDistinct(s[1..], seen + {s[0].id});
      assert [s[0]] + s[1..] == s;
    }
  }

  /**
   Server wins: the merge is the deduplicated server list followed by the local
   sales whose id the server does not have, so every merged sale with a server
   id is a server sale.
   */
  lemma MergeServerWins(server: seq<Sale>, local: seq<Sale>)
    ensures Merge(server, local) == KeepFirst(server, {}) + KeepFirst(local, Ids(server))
    ensures forall k :: 0 <= k < |Merge(server, local)| && Merge(server, local)[k].id in Ids(server) ==>
      Merge(server, local)[k] in server
  {
    KeepFirstAppend(server, local, {});
    assert {} + Ids(server) == Ids(server);
    var m := Merge(server, local);
    var head := KeepFirst(server, {});
    var tail := KeepFirst(local, Ids(server));
    assert forall j :: 0 <= j < |tail| ==> tail[j].id in Ids(tail);
    SubsequenceElements(head, server);
    forall k | 0 <= k < |m| && m[k].id in Ids(server)
      ensures m[k] in server
    {
      assert k < |head|;
      assert m[k] == head[k];
    }
  }

  /** Every id of server ++ local occurs in the merge exactly once, and no other id occurs. */
  lemma MergeIdsExactlyOnce(server: seq<Sale>, local: seq<Sale>, x: Value)
    ensures CountId(Merge(server, local), x) == (if x in Ids(server + local) then 1 else 0)
  {
    CountIdDistinct(Merge(server, local), x);
  }

  /** Merging an already merged list with nothing gives it back. */
  lemma MergeIdempotent(server: seq<Sale>, local: seq<Sale>)
    ensures Merge(Merge(server, local), []) == Merge(server, local)
  {
    var m := Merge(server, local);
    assert m + [] == m;
    KeepFirstDistinct(m, {});
  }

  lemma KeepFirstSnoc(a: seq<Sale>, x: Sale, seen: set<Value>)
    ensures x.id in seen || x.id in Ids(a) ==> KeepFirst(a + [x], seen) == KeepFirst(a, seen)
    ensures !(x.id in seen || x.id in Ids(a)) ==> KeepFirst(a + [x], seen) == KeepFirst(a, seen) + [x]
    ensures Ids(a + [x]) == Ids(a) + {x.id}
  {
    KeepFirstAppend(a, [x], seen);
    assert [x][1..] == [];
    IdsAppend(a, [x]);
  }

  /**
   One pass of the merge: each sale of `source` whose id is not yet in `ids`
   is appended and its id recorded.
   */
  method AppendUnseen(unique: seq<Sale>, ids: set<Value>, source: seq<Sale>) returns (out: seq<Sale>, outIds: set<Value>)
    ensures out == unique + KeepFirst(source, ids)
    ensures outIds == ids + Ids(source)
  {
    out, outIds := unique, ids;
    var i := 0;
    while i < |source|
      invariant 0 <= i <= |source|
      invariant out == unique + KeepFirst(source[..i], ids)
      invariant outIds == ids + Ids(source[..i])
    {
      var venta := source[i];
      PrefixSnoc(source, i);
      KeepFirstSnoc(source[..i], venta, ids);
      if venta.id !in outIds {
        outIds := outIds + {venta.id};
        out := out + [venta];
      }
      i := i + 1;
    }
    assert source[..i] == source;
  }

  /**
   `mergeAndDeduplicateVentas`: a pass over the server list, then one over the
   local list, sharing the set of ids taken. The result is the reference merge:
   no repeated id, every input id present, an order-preserving subsequence of
   server ++ local made of the deduplicated server list followed by the local
   sales the server does not have.
   */
  method MergeAndDeduplicateVentas(server: seq<Sale>, local: seq<Sale>) returns (unique: seq<Sale>)
    ensures unique == Merge(server, local)
    ensures DistinctIds(unique)
    ensures Ids(unique) == Ids(server + local)
    ensures IsSubsequence(unique, server + local)
    ensures unique == KeepFirst(server, {}) + KeepFirst(local, Ids(server))
  {
    var fromServer, ids := AppendUnseen([], {}, server);
    assert fromServer == KeepFirst(server, {});
    assert ids == Ids(server);
    unique, ids := AppendUnseen(fromServer, ids, local);
    MergeFacts(server, local);
    assert unique == Merge(server, local);
  }

  lemma MergeFacts(server: seq<Sale>, local: seq<Sale>)
    ensures Merge(server, local) == KeepFirst(server, {}) + KeepFirst(local, Ids(server))
    ensures DistinctIds(Merge(server, local))
    ensures Ids(Merge(server, local)) == Ids(server + local)
    ensures IsSubsequence(Merge(server, local), server + local)
  {
    MergeServerWins(server, local);
  }

  // ---------------------------------------------------------------------------
  // savePendingVenta
  // ---------------------------------------------------------------------------

  function Abs(x: int): nat {
    if x < 0 then -x else x
  }

  /** Same product and reference, timestamps less than a minute apart. */
  predicate NearDuplicate(p: Sale, v: Sale) {
    p.producto == v.producto && p.referencia == v.referencia && Abs(p.timestamp - v.timestamp) < Config.DuplicateWindowMs
  }

  /** `pending.some(p => ...)`. */
  function HasNearDuplicate(pending: seq<Sale>, v: Sale): (b: bool)
    ensures b <==> exists k :: 0 <= k < |pending| && NearDuplicate(pending[k], v)
  {
    if |pending| == 0 then false
    else NearDuplicate(pending[0], v) || HasNearDuplicate(pending[1..], v)
  }

  /**
   `savePendingVenta`: re-reads the stored list; if some stored sale is a
   near-duplicate of `v` nothing changes; otherwise the list with `v` appended
   is written back. Keys other than the pending one are never touched.
   */
  function SavePendingVenta(store: Storage, v: Sale, writable: bool): (r: Storage)
    ensures (exists k :: 0 <= k < |GetPendingVentas(store)| && NearDuplicate(GetPendingVentas(store)[k], v)) ==> r == store
    ensures !HasNearDuplicate(GetPendingVentas(store), v) && writable ==> GetPendingVentas(r) == GetPendingVentas(store) + [v]
    ensures !writable ==> r == store
    ensures forall k :: k != Config.PendingKey ==> (k in r <==> k in store)
    ensures forall k :: k != Config.PendingKey && k in store ==> r[k] == store[k]
  {
    var pending := GetPendingVentas(store);
    if HasNearDuplicate(pending, v) then store
    else SavePendingVentas(store, pending + [v], writable)
  }

  /**
   Two failed submissions of the same product and reference less than a
   minute apart leave one pending entry: the second is taken as a repeat.
   */
  lemma NearDuplicateSuppressed(store: Storage, a: Sale, b: Sale)
    requires GetPendingVentas(store) == []
    requires a.producto == b.producto && a.referencia == b.referencia && Abs(a.timestamp - b.timestamp) < Config.DuplicateWindowMs
    ensures GetPendingVentas(SavePendingVenta(SavePendingVenta(store, a, true), b, true)) == [a]
  {
    var s1 := SavePendingVenta(store, a, true);
    assert GetPendingVentas(s1) == [a];
    assert NearDuplicate(GetPendingVentas(s1)[0], b);
  }

  // ---------------------------------------------------------------------------
  // processPendingVentas
  // ---------------------------------------------------------------------------

  /** `result?.status === 'success' && !result?.isDuplicate` on a send that did not throw. */
  predicate Confirmed(sent: Api.Fetched<Value>) {
    && sent.Ok?
    && Property(sent.value, "status") == Str("success")
    && !Truthy(Property(sent.value, "isDuplicate"))
  }

  /** The pending sales whose send was not confirmed, in order. */
  function StillPending(pending: seq<Sale>, sent: seq<Api.Fetched<Value>>): seq<Sale>
    requires |sent| == |pending|
  {
    if |pending| == 0 then []
    else (if Confirmed(sent[0]) then [] else [pending[0]]) + StillPending(pending[1..], sent[1..])
  }

  /** The pending sales whose send was confirmed, in order. */
  function Synced(pending: seq<Sale>, sent: seq<Api.Fetched<Value>>): seq<Sale>
    requires |sent| == |pending|
  {
    if |pending| == 0 then []
    else (if Confirmed(sent[0]) then [pending[0]] else []) + Synced(pending[1..], sent[1..])
  }

  lemma {:induction false} RetrySnoc(pending: seq<Sale>, sent: seq<Api.Fetched<Value>>, v: Sale, o: Api.Fetched<Value>)
    requires |sent| == |pending|
    ensures StillPending(pending + [v], sent + [o]) == StillPending(pending, sent) + (if Confirmed(o) then [] else [v])
    ensures Synced(pending + [v], sent + [o]) == Synced(pending, sent) + (if Confirmed(o) then [v] else [])
    decreases |pending|
  {
    if |pending| == 0 {
      assert pending + [v] == [v] && sent + [o] == [o];
    } else {
      var p, s := pending + [v], sent + [o];
      assert p[0] == pending[0] && s[0] == sent[0];
      assert p[1..] == pending[1..] + [v] && s[1..] == sent[1..] + [o];
      RetrySnoc(pending[1..], sent[1..], v, o);
      var kept := if Confirmed(sent[0]) then [] else [pending[0]];
      var done := if Confirmed(sent[0]) then [pending[0]] else [];
      assert StillPending(p, s) == kept + StillPending(p[1..], s[1..]);
      assert Synced(p, s) == done + Synced(p[1..], s[1..]);
    }
  }

  /**
   The retry pass splits the queue: the still-pending and the synced sales are
   both order-preserving subsequences of the queue and together are exactly
   its sales; a sale is synced exactly when its send was confirmed.
   */
  lemma {:induction false} RetrySubsequences(pending: seq<Sale>, sent: seq<Api.Fetched<Value>>)
    requires |sent| == |pending|
    ensures IsSubsequence(StillPending(pending, sent), pending)
    ensures IsSubsequence(Synced(pending, sent), pending)
    decreases |pending|
  {
    if |pending| > 0 {
      var p, o := pending[1..], sent[1..];
      RetrySubsequences(p, o);
      assert [pending[0]] + p == pending;
      var still, synced := StillPending(p, o), Synced(p, o);
      SubsequenceCons(pending[0], still, p);
      SubsequenceCons(pending[0], synced, p);
      if Confirmed(sent[0]) {
        assert StillPending(pending, sent) == still;
        assert Synced(pending, sent) == [pending[0]] + synced;
      } else {
        assert StillPending(pending, sent) == [pending[0]] + still;
        assert Synced(pending, sent) == synced;
      }
    }
  }

  lemma {:induction false} RetryMultiset(pending: seq<Sale>, sent: seq<Api.Fetched<Value>>)
    requires |sent| == |pending|
    ensures multiset(StillPending(pending, sent)) + multiset(Synced(pending, sent)) == multiset(pending)
    decreases |pending|
  {
    if |pending| > 0 {
      var p, o := pending[1..], sent[1..];
      RetryMultiset(p, o);
      assert [pending[0]] + p == pending;
      assert multiset(pending) == multiset{pending[0]} + multiset(p);
      var still, synced := StillPending(p, o), Synced(p, o);
      if Confirmed(sent[0]) {
        assert StillPending(pending, sent) == still;
        assert Synced(pending, sent) == [pending[0]] + synced;
        assert multiset(Synced(pending, sent)) == multiset{pending[0]} + multiset(synced);
      } else {
        assert StillPending(pending, sent) == [pending[0]] + still;
        assert Synced(pending, sent) == synced;
        assert multiset(StillPending(pending, sent)) == multiset{pending[0]} + multiset(still);
      }
    }
  }

  lemma {:induction false} RetryMembership(pending: seq<Sale>, sent: seq<Api.Fetched<Value>>)
    requires |sent| == |pending|
    ensures forall k :: 0 <= k < |pending| && Confirmed(sent[k]) ==> pending[k] in Synced(pending, sent)
    ensures forall k :: 0 <= k < |pending| && !Confirmed(sent[k]) ==> pending[k] in StillPending(pending, sent)
    decreases |pending|
  {
    if |pending| > 0 {
      var p, o := pending[1..], sent[1..];
      RetryMembership(p, o);
      forall k | 1 <= k < |pending|
        ensures Confirmed(sent[k]) ==> pending[k] in Synced(pending, sent)
        ensures !Confirmed(sent[k]) ==> pending[k] in StillPending(pending, sent)
      {
        assert pending[k] == p[k - 1] && sent[k] == o[k - 1];
      }
    }
  }

  lemma RetryPartition(pending: seq<Sale>, sent: seq<Api.Fetched<Value>>)
    requires |sent| == |pending|
    ensures IsSubsequence(StillPending(pending, sent), pending)
    ensures IsSubsequence(Synced(pending, sent), pending)
    ensures multiset(StillPending(pending, sent)) + multiset(Synced(pending, sent)) == multiset(pending)
    ensures forall k :: 0 <= k < |pending| && Confirmed(sent[k]) ==> pending[k] in Synced(pending, sent)
    ensures forall k :: 0 <= k < |pending| && !Confirmed(sent[k]) ==> pending[k] in StillPending(pending, sent)
  {
    RetrySubsequences(pending, sent);
    RetryMultiset(pending, sent);
    RetryMembership(pending, sent);
  }

  /** Nothing confirmed keeps the whole queue; everything confirmed empties it. */
  lemma {:induction false} RetryExtremes(pending: seq<Sale>, sent: seq<Api.Fetched<Value>>)
    requires |sent| == |pending|
    ensures (forall k :: 0 <= k < |sent| ==> !Confirmed(sent[k])) ==> StillPending(pending, sent) == pending
    ensures (forall k :: 0 <= k < |sent| ==> Confirmed(sent[k])) ==> StillPending(pending, sent) == []
    decreases |pending|
  {
    if |pending| > 0 {
      RetryExtremes(pending[1..], sent[1..]);
      assert forall k :: 1 <= k < |sent| ==> sent[1..][k - 1] == sent[k];
      assert [pending[0]] + pending[1..] == pending;
    }
  }

  /** A send acknowledged as a success but flagged as a duplicate does not count as confirmed. */
  lemma DuplicateSuccessStaysPending(fields: map<string, Value>)
    requires "status" in fields && fields["status"] == Str("success")
    requires "isDuplicate" in fields && Truthy(fields["isDuplicate"])
    ensures !Confirmed(Api.Ok(Obj(fields)))
  {
  }

  /** The sales section's state: the shown list, the in-memory queue, and local storage. */
  datatype VentasState = VentasState(ventas: seq<Sale>, pending: seq<Sale>, store: Storage)

  /** What the list re-fetch after a successful send returned: a list, or it threw. */
  datatype Refresh = Refreshed(list: seq<Sale>) | RefreshFailed

  datatype RetryResult = RetryResult(state: VentasState, alerts: seq<Alert>, threw: bool)

  function SyncedAlert(count: nat): Alert {
    Alert("\U{2705} " + NatToString(count) + " ventas sincronizadas", Success)
  }

  /**
   `processPendingVentas`: with an empty in-memory queue nothing happens.
   Otherwise every queued sale is sent (`sent[k]` is the outcome for the k-th),
   the queue in memory and in storage becomes exactly the unconfirmed sales in
   order, and only when at least one was confirmed an alert is shown and the list
   re-fetched; a re-fetch that throws propagates to the caller.
   */
  method ProcessPendingVentas(st: VentasState, sent: seq<Api.Fetched<Value>>, writable: bool, refresh: Refresh)
    returns (r: RetryResult)
    requires |sent| == |st.pending|
    ensures |st.pending| == 0 ==> r == RetryResult(st, [], false)
    ensures |st.pending| > 0 ==>
      && r.state.pending == StillPending(st.pending, sent)
      && r.state.store == SavePendingVentas(st.store, StillPending(st.pending, sent), writable)
    ensures |st.pending| > 0 && |Synced(st.pending, sent)| == 0 ==> r == RetryResult(r.state, [], false) && r.state.ventas == st.ventas
    ensures |Synced(st.pending, sent)| > 0 ==>
      && r.alerts == [SyncedAlert(|Synced(st.pending, sent)|)]
      && r.threw == refresh.RefreshFailed?
      && r.state.ventas == (if refresh.Refreshed? then refresh.list else st.ventas)
  {
    if |st.pending| == 0 {
      return RetryResult(st, [], false);
    }
    var failed: seq<Sale> := [];
    var success: seq<Sale> := [];
    var i := 0;
    while i < |st.pending|
      invariant 0 <= i <= |st.pending|
      invariant failed == StillPending(st.pending[..i], sent[..i])
      invariant success == Synced(st.pending[..i], sent[..i])
    {
      var venta := st.pending[i];
      assert st.pending[..i + 1] == st.pending[..i] + [venta];
      assert sent[..i + 1] == sent[..i] + [sent[i]];
      RetrySnoc(st.pending[..i], sent[..i], venta, sent[i]);
      if Confirmed(sent[i]) {
        success := success + [venta];
      } else {
        failed := failed + [venta];
      }
      i := i + 1;
    }
    assert st.pending[..i] == st.pending && sent[..i] == sent;
    var store := SavePendingVentas(st.store, failed, writable);
    var state := VentasState(st.ventas, failed, store);
    if |success| > 0 {
      var alert := SyncedAlert(|success|);
      match refresh {
        case Refreshed(list) =>
          return RetryResult(state.(ventas := list), [alert], false);
        case RefreshFailed =>
          return RetryResult(state, [alert], true);
      }
    }
    return RetryResult(state, [], false);
  }

  // ---------------------------------------------------------------------------
  // loadInitialData
  // ---------------------------------------------------------------------------

  /** The server list fetch: a list of sales, or it threw. */
  datatype ServerList = ServerSales(list: seq<Sale>) | ServerFailed

  datatype LoadResult = LoadResult(state: VentasState, alerts: seq<Alert>, retried: bool)

  const LoadErrorAlert: Alert := Alert("Error al cargar ventas", Error)

  /**
   `loadInitialData`: fetch the server list, read the queue, show the merge,
   and run the retry pass only when online with a non-empty queue. The retry
   leaves only the unconfirmed sales queued, in memory and in storage; when it
   confirmed none the merge stays shown, when it confirmed some the re-fetched
   list is shown. When the fetch (or the retry's re-fetch) throws, the error
   alert is added and the list shown is whatever the store holds at that point.
   */
  method LoadInitialData(st: VentasState, server: ServerList, online: bool,
                         sent: seq<Api.Fetched<Value>>, writable: bool, refresh: Refresh)
    returns (r: LoadResult)
    requires |sent| == |GetPendingVentas(st.store)|
    ensures r.retried <==> server.ServerSales? && online && |GetPendingVentas(st.store)| > 0
    ensures server.ServerFailed? ==>
      r == LoadResult(st.(ventas := GetPendingVentas(st.store)), [LoadErrorAlert], false)
    ensures server.ServerSales? && !r.retried ==>
      && r.state == VentasState(Merge(server.list, GetPendingVentas(st.store)), GetPendingVentas(st.store), st.store)
      && r.alerts == []
    ensures r.retried ==>
      var queued := GetPendingVentas(st.store);
      && r.state.pending == StillPending(queued, sent)
      && r.state.store == SavePendingVentas(st.store, StillPending(queued, sent), writable)
    ensures r.retried && |Synced(GetPendingVentas(st.store), sent)| == 0 ==>
      && server.ServerSales?
      && r.state.ventas == Merge(server.list, GetPendingVentas(st.store))
      && r.alerts == []
    ensures r.retried && |Synced(GetPendingVentas(st.store), sent)| > 0 && refresh.Refreshed? ==>
      && r.state.ventas == refresh.list
      && r.alerts == [SyncedAlert(|Synced(GetPendingVentas(st.store), sent)|)]
    ensures r.retried && |Synced(GetPendingVentas(st.store), sent)| > 0 && refresh.RefreshFailed? ==>
      && r.state.ventas == GetPendingVentas(r.state.store)
      && r.alerts == [SyncedAlert(|Synced(GetPendingVentas(st.store), sent)|), LoadErrorAlert]
  {
    if server.ServerFailed? {
      return LoadResult(st.(ventas := GetPendingVentas(st.store)), [LoadErrorAlert], false);
    }
    var pending := GetPendingVentas(st.store);
    var merged := MergeAndDeduplicateVentas(server.list, pending);
    var state := VentasState(merged, pending, st.store);
    if online && |pending| > 0 {
      r := RetryOnLoad(state, sent, writable, refresh);
      return;
    }
    return LoadResult(state, [], false);
  }

  /**
   The retry pass as `loadInitialData` runs it, inside its `try`: a re-fetch
   that throws lands in the `catch`, which adds the error alert and shows the
   stored queue.
   */
  method RetryOnLoad(state: VentasState, sent: seq<Api.Fetched<Value>>, writable: bool, refresh: Refresh)
    returns (r: LoadResult)
    requires |sent| == |state.pending| > 0
    ensures r.retried
    ensures r.state.pending == StillPending(state.pending, sent)
    ensures r.state.store == SavePendingVentas(state.store, StillPending(state.pending, sent), writable)
    ensures |Synced(state.pending, sent)| == 0 ==> r.state.ventas == state.ventas && r.alerts == []
    ensures |Synced(state.pending, sent)| > 0 && refresh.Refreshed? ==>
      r.state.ventas == refresh.list && r.alerts == [SyncedAlert(|Synced(state.pending, sent)|)]
    ensures |Synced(state.pending, sent)| > 0 && refresh.RefreshFailed? ==>
      && r.state.ventas == GetPendingVentas(r.state.store)
      && r.alerts == [SyncedAlert(|Synced(state.pending, sent)|), LoadErrorAlert]
  {
    var retry := ProcessPendingVentas(state, sent, writable, refresh);
    if retry.threw {
      var after := retry.state;
      return LoadResult(after.(ventas := GetPendingVentas(after.store)), retry.alerts + [LoadErrorAlert], true);
    }
    return LoadResult(retry.state, retry.alerts, true);
  }

  // ---------------------------------------------------------------------------
  // handleFormSubmit
  // ---------------------------------------------------------------------------

  datatype SubmitResult = SubmitResult(state: VentasState, alerts: seq<Alert>)

  /** `result?.status === 'success'`: the submit path does not look at `isDuplicate`. */
  predicate Accepted(sent: Api.Fetched<Value>) {
    sent.Ok? && Property(sent.value, "status") == Str("success")
  }

  const SuccessAlert: Alert := Alert("\U{2705} Venta registrada con \U{00E9}xito", Success)
  const SavedLocallyAlert: Alert := Alert("\U{26A0}\U{FE0F} Se guard\U{00F3} localmente", Warning)
  const OfflineAlert: Alert := Alert("\U{1F4F4} Se guard\U{00F3} localmente (sin conexi\U{00F3}n)", Info)

  /**
   `handleFormSubmit`: the new sale is put at the head of the shown list before
   sending. An accepted send shows success and replaces the list with the
   re-fetched one; a non-success answer or a throw (including a re-fetch that
   throws after an accepted send) queues the sale through `savePendingVenta`
   and the optimistic list stays. The in-memory queue is not touched.
   */
  function HandleFormSubmit(st: VentasState, venta: Sale, sent: Api.Fetched<Value>, refresh: Refresh, writable: bool)
    : (r: SubmitResult)
    ensures r.state.pending == st.pending
    ensures Accepted(sent) && refresh.Refreshed? ==>
      r.state == st.(ventas := refresh.list) && r.alerts == [SuccessAlert]
    ensures !(Accepted(sent) && refresh.Refreshed?) ==>
      && r.state.ventas == [venta] + st.ventas
      && r.state.store == SavePendingVenta(st.store, venta, writable)
    ensures sent.Failed? ==> r.alerts == [OfflineAlert]
    ensures sent.Ok? && !Accepted(sent) ==> r.alerts == [SavedLocallyAlert]
    ensures Accepted(sent) && refresh.RefreshFailed? ==> r.alerts == [SuccessAlert, OfflineAlert]
  {
    var optimistic := [venta] + st.ventas;
    if Accepted(sent) then
      match refresh
      case Refreshed(list) => SubmitResult(st.(ventas := list), [SuccessAlert])
      case RefreshFailed =>
        SubmitResult(st.(ventas := optimistic, store := SavePendingVenta(st.store, venta, writable)),
                     [SuccessAlert, OfflineAlert])
    else if sent.Ok? then
      SubmitResult(st.(ventas := optimistic, store := SavePendingVenta(st.store, venta, writable)), [SavedLocallyAlert])
    else
      SubmitResult(st.(ventas := optimistic, store := SavePendingVenta(st.store, venta, writable)), [OfflineAlert])
  }

  /**
   A sale whose send failed, with an empty queue before, is the queue's only
   entry; a later retry pass that confirms it leaves the queue empty.
   */
  lemma OfflineSaleThenSync(st: VentasState, venta: Sale, failure: Api.FetchError, ack: Api.Fetched<Value>)
    requires GetPendingVentas(st.store) == []
    requires Confirmed(ack)
    ensures var queued := HandleFormSubmit(st, venta, Api.Failed(failure), RefreshFailed, true).state.store;
      && GetPendingVentas(queued) == [venta]
      && GetPendingVentas(SavePendingVentas(queued, StillPending([venta], [ack]), true)) == []
  {
  }

  /**
   An accepted send whose list re-fetch throws still queues the sale, so the
   retry pass will send it again.
   */
  lemma AcceptedButRefreshFailedQueues(st: VentasState, venta: Sale, sent: Api.Fetched<Value>)
    requires Accepted(sent)
    requires GetPendingVentas(st.store) == []
    ensures GetPendingVentas(HandleFormSubmit(st, venta, sent, RefreshFailed, true).state.store) == [venta]
  {
  }
}
