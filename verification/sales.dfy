/** The sale record ("venta") the sales section creates, queues and sends. */
module Sales {
  import opened JsValues

  /**
   One sale. `id` and `timestamp` are both read from the clock when the form
   is submitted (two separate readings, so they may differ); `precioFinal` may
   be NaN when the price fields do not parse. Dates are `YYYY-MM-DD`, times `HH:MM`.
   */
  datatype Sale = Sale(
    id: Value,
    producto: string,
    referencia: string,
    descripcion: string,
    precio: Number,
    precioFinal: Number,
    fecha: string,
    hora: string,
    timestamp: int)

  /** The ids carried by a list of sales. */
  function Ids(s: seq<Sale>): (r: set<Value>)
    ensures forall k :: 0 <= k < |s| ==> s[k].id in r
  {
    if |s| == 0 then {} else {s[0].id} + Ids(s[1..])
  }

  /** Every id in `Ids(s)` is carried by some sale of `s`. */
  lemma {:induction false} IdsWitness(s: seq<Sale>, x: Value)
    requires x in Ids(s)
    ensures exists k :: 0 <= k < |s| && s[k].id == x
    decreases |s|
  {
    if s[0].id != x {
      IdsWitness(s[1..], x);
      var k :| 0 <= k < |s[1..]| && s[1..][k].id == x;
      assert s[k + 1].id == x;
    }
  }

  /** No two sales of the list share an id. */
  predicate DistinctIds(s: seq<Sale>) {
    forall i, j :: 0 <= i < j < |s| ==> s[i].id != s[j].id
  }

  /** In a list with distinct ids the head's id does not recur in the tail. */
  lemma DistinctHead(s: seq<Sale>)
    requires |s| > 0 && DistinctIds(s)
    ensures s[0].id !in Ids(s[1..]) && DistinctIds(s[1..])
  {
    if s[0].id in Ids(s[1..]) {
      IdsWitness(s[1..], s[0].id);
    }
  }

  /** How many sales of the list carry the id `x`. */
  function CountId(s: seq<Sale>, x: Value): nat {
    if |s| == 0 then 0 else (if s[0].id == x then 1 else 0) + CountId(s[1..], x)
  }

  /** With distinct ids, every id present occurs exactly once and every other id not at all. */
  lemma {:induction false} CountIdDistinct(s: seq<Sale>, x: Value)
    requires DistinctIds(s)
    ensures CountId(s, x) == (if x in Ids(s) then 1 else 0)
    decreases |s|
  {
    if |s| > 0 {
      DistinctHead(s);
      CountIdDistinct(s[1..], x);
    }
  }
}
