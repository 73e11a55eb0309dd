/** The GIS and TCAD outer join and the keyed store it is written into. */
module Ingestion {
  import opened Options

  datatype Parcel = Parcel(parcelId: string, address: string, latitude: real, longitude: real)

  datatype TcadRecord = TcadRecord(
    accountNumber: string, landValue: int, improvementValue: int, appraisedValue: int, yearBuilt: int, livingArea: int)

  datatype PropertyRecord = PropertyRecord(
    parcelId: string, address: string, latitude: real, longitude: real,
    landValue: int, improvementValue: int, appraisedValue: int, yearBuilt: int, livingArea: int, sources: seq<string>)

  /** A parcel's geometry, with the values of its matching record if there is one. */
  function FromParcel(p: Parcel, t: Option<TcadRecord>): PropertyRecord
  {
    if t.Some? then
      PropertyRecord(p.parcelId, p.address, p.latitude, p.longitude, t.value.landValue, t.value.improvementValue,
                     t.value.appraisedValue, t.value.yearBuilt, t.value.livingArea, ["gis_attribute", "tcad_appraisal"])
    else PropertyRecord(p.parcelId, p.address, p.latitude, p.longitude, 0, 0, 0, 0, 0, ["gis_attribute"])
  }

  /** A record with no parcel: values and no geometry. */
  function FromRecord(t: TcadRecord): PropertyRecord
  {
    PropertyRecord(t.accountNumber, "", 0.0, 0.0, t.landValue, t.improvementValue, t.appraisedValue, t.yearBuilt,
                   t.livingArea, ["tcad_appraisal"])
  }

  // ---- Last writer under a key ----

  function LastParcel(ps: seq<Parcel>, k: string): Option<Parcel>
  {
    if ps == [] then None
    else if ps[|ps| - 1].parcelId == k then Some(ps[|ps| - 1])
    else LastParcel(ps[..|ps| - 1], k)
  }

  function LastTcad(ts: seq<TcadRecord>, k: string): Option<TcadRecord>
  {
    if ts == [] then None
    else if ts[|ts| - 1].accountNumber == k then Some(ts[|ts| - 1])
    else LastTcad(ts[..|ts| - 1], k)
  }

  function LastProperty(rs: seq<PropertyRecord>, k: string): Option<PropertyRecord>
  {
    if rs == [] then None
    else if rs[|rs| - 1].parcelId == k then Some(rs[|rs| - 1])
    else LastProperty(rs[..|rs| - 1], k)
  }

  // ---- What the join computes ----

  function ByAccount(ts: seq<TcadRecord>): map<string, TcadRecord>
  {
    if ts == [] then map[] else ByAccount(ts[..|ts| - 1])[ts[|ts| - 1].accountNumber := ts[|ts| - 1]]
  }

  function Find(byAccount: map<string, TcadRecord>, k: string): Option<TcadRecord>
  {
    if k in byAccount then Some(byAccount[k]) else None
  }

  /** One record per parcel, in parcel order. */
  function ParcelPart(ps: seq<Parcel>, byAccount: map<string, TcadRecord>): seq<PropertyRecord>
  {
    if ps == [] then []
    else
      var p := ps[|ps| - 1];
      ParcelPart(ps[..|ps| - 1], byAccount) + [FromParcel(p, Find(byAccount, p.parcelId))]
  }

  function Matched(ps: seq<Parcel>, byAccount: map<string, TcadRecord>): set<string>
  {
    if ps == [] then {}
    else
      var k := ps[|ps| - 1].parcelId;
      Matched(ps[..|ps| - 1], byAccount) + (if k in byAccount then {k} else {})
  }

  /** The records whose account matched no parcel, in record order. */
  function RecordPart(ts: seq<TcadRecord>, matched: set<string>): seq<PropertyRecord>
  {
    if ts == [] then []
    else
      var t := ts[|ts| - 1];
      RecordPart(ts[..|ts| - 1], matched) + (if t.accountNumber in matched then [] else [FromRecord(t)])
  }

  function JoinSpec(ps: seq<Parcel>, ts: seq<TcadRecord>): seq<PropertyRecord>
  {
    ParcelPart(ps, ByAccount(ts)) + RecordPart(ts, Matched(ps, ByAccount(ts)))
  }

  /** `JoinGISAndTCAD` */
  method JoinGISAndTCAD(parcels: seq<Parcel>, records: seq<TcadRecord>) returns (out: seq<PropertyRecord>)
    ensures out == JoinSpec(parcels, records)
  {
    hide FromParcel;
    hide FromRecord;
    var byAccount: map<string, TcadRecord> := map[];
    for i := 0 to |records|
      invariant byAccount == ByAccount(records[..i])
    {
      assert records[..i + 1][..i] == records[..i];
      byAccount := byAccount[records[i].accountNumber := records[i]];
    }
    assert records[..|records|] == records;
    var matched: set<string> := {};
    out := [];
    for i := 0 to |parcels|
      invariant out == ParcelPart(parcels[..i], byAccount) && matched == Matched(parcels[..i], byAccount)
    {
      var p := parcels[i];
      assert parcels[..i + 1][..i] == parcels[..i];
      if p.parcelId in byAccount {
        matched := matched + {p.parcelId};
      }
      out := out + [FromParcel(p, Find(byAccount, p.parcelId))];
    }
    assert parcels[..|parcels|] == parcels;
    ghost var fromParcels := out;
    for i := 0 to |records|
      invariant out == fromParcels + RecordPart(records[..i], matched)
    {
      var t := records[i];
      assert records[..i + 1][..i] == records[..i];
      if t.accountNumber in matched {
        continue;
      }
      out := out + [FromRecord(t)];
    }
  }

  // ---- The store ----

  function PutAll(store: map<string, PropertyRecord>, rs: seq<PropertyRecord>): map<string, PropertyRecord>
  {
    if rs == [] then store else PutAll(store, rs[..|rs| - 1])[rs[|rs| - 1].parcelId := rs[|rs| - 1]]
  }

  class MemStore {
    var properties: map<string, PropertyRecord>

    constructor ()
      ensures properties == map[]
    {
      properties := map[];
    }

    /** `PutProperty` */
    method PutProperty(rec: PropertyRecord)
      modifies this
      ensures properties == old(properties)[rec.parcelId := rec]
    {
      properties := properties[rec.parcelId := rec];
    }

    /** `Properties`: a snapshot, in no particular order. */
    method Properties() returns (out: seq<PropertyRecord>)
      ensures |out| == |properties|
      ensures forall r :: r in out <==> exists k :: k in properties && properties[k] == r
    {
      out := [];
      var keys := properties.Keys;
      while keys != {}
        invariant keys <= properties.Keys && |out| + |keys| == |properties|
        invariant forall r :: r in out <==> exists k :: k in properties && k !in keys && properties[k] == r
        decreases |keys|
      {
        var k :| k in keys;
        keys := keys - {k};
        out := out + [properties[k]];
      }
    }
  }

  /** `IngestProperties` on the outcomes of the two parsers; nothing is written when either fails. */
  method IngestProperties(store: MemStore, gis: Result<seq<Parcel>, string>, tcad: Result<seq<TcadRecord>, string>)
    returns (count: Result<nat, string>)
    modifies store
    ensures gis.Err? ==> count == Err(gis.error) && store.properties == old(store.properties)
    ensures gis.Ok? && tcad.Err? ==> count == Err(tcad.error) && store.properties == old(store.properties)
    ensures gis.Ok? && tcad.Ok? ==>
              && count == Ok(|JoinSpec(gis.value, tcad.value)|)
              && store.properties == PutAll(old(store.properties), JoinSpec(gis.value, tcad.value))
  {
    if gis.Err? {
      return Err(gis.error);
    }
    if tcad.Err? {
      return Err(tcad.error);
    }
    hide JoinSpec;
    var joined := JoinGISAndTCAD(gis.value, tcad.value);
    for i := 0 to |joined|
      invariant store.properties == PutAll(old(store.properties), joined[..i])
    {
      assert joined[..i + 1][..i] == joined[..i];
      store.PutProperty(joined[i]);
    }
    assert joined[..|joined|] == joined;
    return Ok(|joined|);
  }

  // ---- A full outer join, last writer wins ----

  lemma {:induction false} ByAccountIsLast(ts: seq<TcadRecord>, k: string)
    ensures Find(ByAccount(ts), k) == LastTcad(ts, k)
  {
    if ts == [] {
    } else {
      ByAccountIsLast(ts[..|ts| - 1], k);
    }
  }

  lemma {:induction false} PutAllIsLast(store: map<string, PropertyRecord>, rs: seq<PropertyRecord>, k: string)
    ensures var now, last := PutAll(store, rs), LastProperty(rs, k);
            && (k in now <==> k in store || last.Some?)
            && (last.Some? ==> now[k] == last.value)
            && (last.None? && k in store ==> now[k] == store[k])
  {
    if rs == [] {
    } else {
      PutAllIsLast(store, rs[..|rs| - 1], k);
    }
  }

  lemma {:induction false} LastOfSum(a: seq<PropertyRecord>, b: seq<PropertyRecord>, k: string)
    ensures LastProperty(a + b, k) == if LastProperty(b, k).Some? then LastProperty(b, k) else LastProperty(a, k)
  {
    if b == [] {
      assert a + b == a;
    } else {
      LastOfSum(a, b[..|b| - 1], k);
      assert (a + b)[..|a + b| - 1] == a + b[..|b| - 1];
    }
  }

  lemma LastOfAppend(rs: seq<PropertyRecord>, r: PropertyRecord, k: string)
    ensures LastProperty(rs + [r], k) == if r.parcelId == k then Some(r) else LastProperty(rs, k)
  {
    assert (rs + [r])[..|rs + [r]| - 1] == rs;
  }

  lemma {:induction false} ParcelPartLast(ps: seq<Parcel>, byAccount: map<string, TcadRecord>, k: string)
    ensures var p := LastParcel(ps, k);
            LastProperty(ParcelPart(ps, byAccount), k) ==
            if p.Some? then Some(FromParcel(p.value, Find(byAccount, k))) else None
  {
    if ps == [] {
    } else {
      var n := |ps| - 1;
      ParcelPartLast(ps[..n], byAccount, k);
      hide LastProperty;
      hide Find;
      LastOfAppend(ParcelPart(ps[..n], byAccount), FromParcel(ps[n], Find(byAccount, ps[n].parcelId)), k);
    }
  }

  lemma {:induction false} RecordPartLast(ts: seq<TcadRecord>, matched: set<string>, k: string)
    ensures var t := LastTcad(ts, k);
            LastProperty(RecordPart(ts, matched), k) ==
            if t.Some? && k !in matched then Some(FromRecord(t.value)) else None
  {
    if ts == [] {
    } else {
      var n := |ts| - 1;
      RecordPartLast(ts[..n], matched, k);
      hide LastProperty;
      var before := RecordPart(ts[..n], matched);
      if ts[n].accountNumber in matched {
        assert RecordPart(ts, matched) == before;
      } else {
        LastOfAppend(before, FromRecord(ts[n]), k);
      }
    }
  }

  lemma {:induction false} MatchedExact(ps: seq<Parcel>, byAccount: map<string, TcadRecord>, k: string)
    ensures k in Matched(ps, byAccount) <==> k in byAccount && LastParcel(ps, k).Some?
  {
    if ps == [] {
    } else {
      MatchedExact(ps[..|ps| - 1], byAccount, k);
    }
  }

  /** What the store must hold under `k` after ingesting. */
  function Expected(store: map<string, PropertyRecord>, ps: seq<Parcel>, ts: seq<TcadRecord>, k: string)
    : Option<PropertyRecord>
  {
    var p, t := LastParcel(ps, k), LastTcad(ts, k);
    if p.Some? then Some(FromParcel(p.value, t))
    else if t.Some? then Some(FromRecord(t.value))
    else if k in store then Some(store[k])
    else None
  }

  /**
   * Ingestion is a full outer join and the last writer wins: for any lists, with any duplicates, the store
   * holds under each key the last parcel's geometry with the last matching record's values, or the last
   * record alone, or what it held before; and no other key.
   */
  lemma IngestIsOuterJoin(store: map<string, PropertyRecord>, ps: seq<Parcel>, ts: seq<TcadRecord>, k: string)
    ensures var now, want := PutAll(store, JoinSpec(ps, ts)), Expected(store, ps, ts, k);
            (k in now <==> want.Some?) && (want.Some? ==> now[k] == want.value)
  {
    hide FromParcel;
    hide FromRecord;
    hide PutAll;
    hide ParcelPart;
    hide RecordPart;
    hide Matched;
    var byAccount := ByAccount(ts);
    ByAccountIsLast(ts, k);
    MatchedExact(ps, byAccount, k);
    ParcelPartLast(ps, byAccount, k);
    RecordPartLast(ts, Matched(ps, byAccount), k);
    LastOfSum(ParcelPart(ps, byAccount), RecordPart(ts, Matched(ps, byAccount)), k);
    PutAllIsLast(store, JoinSpec(ps, ts), k);
  }

  /** A key is touched exactly when a parcel or a record carries it, and its tags say which sides did. */
  lemma SourcesTellSides(store: map<string, PropertyRecord>, ps: seq<Parcel>, ts: seq<TcadRecord>, k: string)
    requires LastParcel(ps, k).Some? || LastTcad(ts, k).Some?
    ensures var now := PutAll(store, JoinSpec(ps, ts));
            && k in now && now[k].parcelId == k
            && ("gis_attribute" in now[k].sources <==> exists p :: p in ps && p.parcelId == k)
            && ("tcad_appraisal" in now[k].sources <==> exists t :: t in ts && t.accountNumber == k)
  {
    hide PutAll;
    hide JoinSpec;
    IngestIsOuterJoin(store, ps, ts, k);
    LastParcelExists(ps, k);
    LastTcadExists(ts, k);
  }

  lemma {:induction false} LastParcelExists(ps: seq<Parcel>, k: string)
    ensures LastParcel(ps, k).Some? <==> exists p :: p in ps && p.parcelId == k
    ensures LastParcel(ps, k).Some? ==> LastParcel(ps, k).value.parcelId == k
  {
    if ps == [] {
    } else {
      LastParcelExists(ps[..|ps| - 1], k);
      assert ps == ps[..|ps| - 1] + [ps[|ps| - 1]];
    }
  }

  lemma {:induction false} LastTcadExists(ts: seq<TcadRecord>, k: string)
    ensures LastTcad(ts, k).Some? <==> exists t :: t in ts && t.accountNumber == k
    ensures LastTcad(ts, k).Some? ==> LastTcad(ts, k).value.accountNumber == k
  {
    if ts == [] {
    } else {
      LastTcadExists(ts[..|ts| - 1], k);
      assert ts == ts[..|ts| - 1] + [ts[|ts| - 1]];
    }
  }

  /** Field by field: geometry of the last parcel, values of the last record, zeros and blanks for a missing side. */
  lemma JoinedFields(store: map<string, PropertyRecord>, ps: seq<Parcel>, ts: seq<TcadRecord>, k: string)
    requires LastParcel(ps, k).Some? || LastTcad(ts, k).Some?
    ensures var now, p, t := PutAll(store, JoinSpec(ps, ts)), LastParcel(ps, k), LastTcad(ts, k);
            && k in now && now[k].parcelId == k
            && now[k].address == (if p.Some? then p.value.address else "")
            && now[k].latitude == (if p.Some? then p.value.latitude else 0.0)
            && now[k].longitude == (if p.Some? then p.value.longitude else 0.0)
            && now[k].landValue == (if t.Some? then t.value.landValue else 0)
            && now[k].improvementValue == (if t.Some? then t.value.improvementValue else 0)
            && now[k].appraisedValue == (if t.Some? then t.value.appraisedValue else 0)
            && now[k].yearBuilt == (if t.Some? then t.value.yearBuilt else 0)
            && now[k].livingArea == (if t.Some? then t.value.livingArea else 0)
  {
    hide PutAll;
    hide JoinSpec;
    IngestIsOuterJoin(store, ps, ts, k);
    LastParcelKey(ps, k);
    LastTcadKey(ts, k);
    hide LastParcel;
    hide LastTcad;
  }

  lemma {:induction false} LastParcelKey(ps: seq<Parcel>, k: string)
    ensures LastParcel(ps, k).Some? ==> LastParcel(ps, k).value.parcelId == k
  {
    if ps == [] {
    } else {
      LastParcelKey(ps[..|ps| - 1], k);
    }
  }

  lemma {:induction false} LastTcadKey(ts: seq<TcadRecord>, k: string)
    ensures LastTcad(ts, k).Some? ==> LastTcad(ts, k).value.accountNumber == k
  {
    if ts == [] {
    } else {
      LastTcadKey(ts[..|ts| - 1], k);
    }
  }

  /** The last parcel of a key is the one no later parcel of the list shares it with. */
  lemma {:induction false} LastParcelIs(ps: seq<Parcel>, i: nat)
    requires i < |ps| && forall j :: i < j < |ps| ==> ps[j].parcelId != ps[i].parcelId
    ensures LastParcel(ps, ps[i].parcelId) == Some(ps[i])
  {
    if i == |ps| - 1 {
    } else {
      LastParcelIs(ps[..|ps| - 1], i);
    }
  }

  lemma {:induction false} LastTcadIs(ts: seq<TcadRecord>, i: nat)
    requires i < |ts| && forall j :: i < j < |ts| ==> ts[j].accountNumber != ts[i].accountNumber
    ensures LastTcad(ts, ts[i].accountNumber) == Some(ts[i])
  {
    if i == |ts| - 1 {
    } else {
      LastTcadIs(ts[..|ts| - 1], i);
    }
  }
}
