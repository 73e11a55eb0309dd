/**
 * When a joined payload determines the fields of its row: exactly when no field holds the separator. nil and the
 * empty string are the same text.
 */
module PayloadFields {
  import opened Options
  import opened Text
  import opened AuditChain

  ghost predicate BarFree(parts: seq<string>)
  {
    forall i :: 0 <= i < |parts| ==> '|' !in parts[i]
  }

  // ---- Bar-free texts are read back ----

  function Bars(s: string): nat
  {
    if s == "" then 0 else (if s[0] == '|' then 1 else 0) + Bars(s[1..])
  }

  lemma {:induction false} BarsOfSum(a: string, b: string)
    ensures Bars(a + b) == Bars(a) + Bars(b)
  {
    if a == "" {
      assert a + b == b;
    } else {
      BarsOfSum(a[1..], b);
      assert (a + b)[1..] == a[1..] + b;
    }
  }

  lemma {:induction false} NoBarsIff(s: string)
    ensures Bars(s) == 0 <==> '|' !in s
  {
    if s == "" {
    } else {
      NoBarsIff(s[1..]);
      assert s == [s[0]] + s[1..];
    }
  }

  function BarsWithin(parts: seq<string>): nat
  {
    if parts == [] then 0 else Bars(parts[0]) + BarsWithin(parts[1..])
  }

  /** A join holds the bars of its parts and one between any two. */
  lemma {:induction false} BarsOfJoin(parts: seq<string>)
    requires parts != []
    ensures Bars(Join("|", parts)) == BarsWithin(parts) + |parts| - 1
  {
    if |parts| == 1 {
      assert parts[1..] == [];
    } else {
      BarsOfJoin(parts[1..]);
      JoinStep(parts);
      BarsOfSum(parts[0] + "|", Join("|", parts[1..]));
      BarsOfSum(parts[0], "|");
      assert Bars("|") == 1 + Bars("|"[1..]) && "|"[1..] == "";
    }
  }

  lemma JoinStep(parts: seq<string>)
    requires |parts| > 1
    ensures Join("|", parts) == parts[0] + "|" + Join("|", parts[1..])
  {
  }

  lemma {:induction false} BarFreeIff(parts: seq<string>)
    ensures BarsWithin(parts) == 0 <==> BarFree(parts)
  {
    if parts == [] {
    } else {
      BarFreeIff(parts[1..]);
      NoBarsIff(parts[0]);
      BarFreeCons(parts);
    }
  }

  lemma BarFreeCons(parts: seq<string>)
    requires parts != []
    ensures BarFree(parts) <==> '|' !in parts[0] && BarFree(parts[1..])
  {
    if '|' !in parts[0] && BarFree(parts[1..]) {
      forall i | 0 <= i < |parts|
        ensures '|' !in parts[i]
      {
        assert i > 0 ==> parts[i] == parts[1..][i - 1];
      }
    }
  }

  lemma HeadsAgree(x: string, p: string, y: string, q: string)
    requires x + "|" + p == y + "|" + q && '|' !in x && '|' !in y
    ensures x == y && p == q
  {
    var s, t := x + "|" + p, y + "|" + q;
    assert s[|x|] == '|' && t[|y|] == '|';
    assert forall k :: 0 <= k < |x| ==> s[k] == x[k];
    assert forall k :: 0 <= k < |y| ==> t[k] == y[k];
    assert |x| == |y|;
    assert x == s[..|x|] && y == t[..|y|];
    assert p == s[|x| + 1..] && q == t[|y| + 1..];
  }

  lemma {:induction false} BarFreeJoins(a: seq<string>, b: seq<string>)
    requires a != [] && |a| == |b| && BarFree(a) && BarFree(b) && Join("|", a) == Join("|", b)
    ensures a == b
  {
    if |a| == 1 {
    } else {
      JoinStep(a);
      JoinStep(b);
      BarFreeCons(a);
      BarFreeCons(b);
      hide Join;
      HeadsAgree(a[0], Join("|", a[1..]), b[0], Join("|", b[1..]));
      BarFreeJoins(a[1..], b[1..]);
      assert a == [a[0]] + a[1..] && b == [b[0]] + b[1..];
    }
  }

  /** Of two lists of one length with one join, if the first is bar-free they are the same list. */
  lemma JoinDetermines(a: seq<string>, b: seq<string>)
    requires a != [] && |a| == |b| && BarFree(a) && Join("|", a) == Join("|", b)
    ensures a == b
  {
    BarsOfJoin(a);
    BarsOfJoin(b);
    BarFreeIff(a);
    BarFreeIff(b);
    BarFreeJoins(a, b);
  }

  // ---- A bar inside a field moves the boundary ----

  /** What follows a bar inside a part can be moved to the front of the next part. */
  lemma {:induction false} BoundaryMoves(parts: seq<string>, i: nat, x: string, y: string)
    requires i + 1 < |parts| && parts[i] == x + "|" + y
    ensures Join("|", parts[i := x][i + 1 := y + "|" + parts[i + 1]]) == Join("|", parts)
  {
    var now := parts[i := x][i + 1 := y + "|" + parts[i + 1]];
    JoinStep(parts);
    JoinStep(now);
    if i > 0 {
      BoundaryMoves(parts[1..], i - 1, x, y);
      assert now[1..] == parts[1..][i - 1 := x][i := y + "|" + parts[1..][i]];
    } else {
      FirstBoundary(parts, now, x, y);
    }
  }

  lemma FirstBoundary(parts: seq<string>, now: seq<string>, x: string, y: string)
    requires |parts| > 1 && parts[0] == x + "|" + y && now == parts[0 := x][1 := y + "|" + parts[1]]
    ensures now[0] + "|" + Join("|", now[1..]) == parts[0] + "|" + Join("|", parts[1..])
  {
    if |parts| == 2 {
      assert Join("|", now[1..]) == now[1] && Join("|", parts[1..]) == parts[1];
      assert x + "|" + (y + "|" + parts[1]) == (x + "|" + y) + "|" + parts[1];
    } else {
      JoinStep(now[1..]);
      JoinStep(parts[1..]);
      assert now[1..][1..] == parts[1..][1..];
      var rest := Join("|", parts[1..][1..]);
      assert x + "|" + ((y + "|" + parts[1]) + "|" + rest) == (x + "|" + y) + "|" + (parts[1] + "|" + rest);
    }
  }

  lemma SplitAtBar(s: string) returns (x: string, y: string)
    requires '|' in s
    ensures s == x + "|" + y
  {
    var j :| 0 <= j < |s| && s[j] == '|';
    x, y := s[..j], s[j + 1..];
  }

  /** An entry with the given field texts. */
  function EntryOf(texts: seq<string>): (e: Entry)
    requires |texts| == 7
    ensures Fields(e) == texts
  {
    Entry(texts[0], Some(texts[1]), Some(texts[2]), Some(texts[3]), Some(texts[4]), Some(texts[5]), Some(texts[6]))
  }

  /** Another list of field texts with the same payload. */
  lemma OtherTexts(texts: seq<string>, i: nat, prev: string) returns (other: seq<string>)
    requires |texts| == 7 && i < 7 && '|' in texts[i]
    ensures |other| == 7 && other != texts && Join("|", other + [prev]) == Join("|", texts + [prev])
  {
    var x, y := SplitAtBar(texts[i]);
    if i < 6 {
      other := texts[i := x][i + 1 := y + "|" + texts[i + 1]];
      var parts := texts + [prev];
      BoundaryMoves(parts, i, x, y);
      assert parts[i := x][i + 1 := y + "|" + parts[i + 1]] == other + [prev];
      assert |other[i]| < |texts[i]|;
    } else {
      other := texts[5 := texts[5] + "|" + x][6 := y];
      var parts := other + [prev];
      BoundaryMoves(parts, 5, texts[5], x);
      assert parts[5 := texts[5]][6 := x + "|" + parts[6]] == texts + [prev];
      assert |other[6]| < |texts[6]|;
    }
  }

  // ---- Rows ----

  /** No other field texts, and no other previous hash, give the payload. */
  ghost predicate Determined(e: Entry, prev: Option<string>)
  {
    forall f, q :: Payload(f, q) == Payload(e, prev) ==> Fields(f) == Fields(e) && Field(q) == Field(prev)
  }

  lemma BarFreeIsDetermined(e: Entry, p: Option<string>, f: Entry, q: Option<string>)
    requires BarFree(Fields(e)) && '|' !in Field(p) && Payload(e, p) == Payload(f, q)
    ensures Fields(e) == Fields(f) && Field(p) == Field(q)
  {
    var a, b := Fields(e) + [Field(p)], Fields(f) + [Field(q)];
    assert |Fields(e)| == 7 && |Fields(f)| == 7;
    hide Fields;
    hide Field;
    assert forall i :: 0 <= i < 7 ==> a[i] == Fields(e)[i];
    JoinDetermines(a, b);
    assert a[..7] == Fields(e) && b[..7] == Fields(f) && a[7] == Field(p) && b[7] == Field(q);
  }

  /** With a bar in a field there is another entry, with other texts, of the same payload. */
  lemma BarIsNotDetermined(e: Entry, p: Option<string>) returns (f: Entry)
    requires !BarFree(Fields(e))
    ensures Payload(f, p) == Payload(e, p) && Fields(f) != Fields(e)
  {
    assert |Fields(e)| == 7;
    hide Fields;
    hide Field;
    var i :| 0 <= i < 7 && '|' in Fields(e)[i];
    var other := OtherTexts(Fields(e), i, Field(p));
    f := EntryOf(other);
  }

  /** A payload determines the field texts exactly when no field of the entry holds a bar. */
  lemma DeterminedIff(e: Entry, prev: Option<string>)
    requires '|' !in Field(prev)
    ensures Determined(e, prev) <==> BarFree(Fields(e))
  {
    hide Fields;
    hide Field;
    hide Payload;
    hide BarFree;
    if BarFree(Fields(e)) {
      forall f, q | Payload(f, q) == Payload(e, prev)
        ensures Fields(f) == Fields(e) && Field(q) == Field(prev)
      {
        BarFreeIsDetermined(e, prev, f, q);
      }
    } else {
      var f := BarIsNotDetermined(e, prev);
      assert Payload(f, prev) == Payload(e, prev);
    }
  }

  // ---- Logs ----

  ghost predicate BarFreeLog(log: seq<Row>)
  {
    forall i :: 0 <= i < |log| ==> BarFree(Fields(log[i].entry))
  }

  /** The same texts in every row. */
  ghost predicate SameTexts(a: seq<Row>, b: seq<Row>)
  {
    && |a| == |b|
    && forall i :: 0 <= i < |a| ==>
         Fields(a[i].entry) == Fields(b[i].entry) && Field(a[i].prevHash) == Field(b[i].prevHash)
  }

  /**
   * In a log whose fields hold no bar, an edit of any single field is detected: an intact log with the same last
   * hash has the same texts in every row, unless it comes with a collision. Nothing is assumed of its fields.
   */
  lemma FieldEditIsDetected(hash: string -> string, log: seq<Row>, forged: seq<Row>)
    requires Digest(hash) && Intact(hash, log) && BarFreeLog(log)
    requires Intact(hash, forged) && LastHash(forged) == LastHash(log)
    ensures SameTexts(log, forged) || Collision(hash, log, forged)
  {
    hide Collision;
    hide Digest;
    hide Fields;
    hide Field;
    hide Payload;
    hide BarFree;
    SameHeadSameLog(hash, log, forged);
    if SamePayloads(log, forged) {
      forall i | 0 <= i < |log|
        ensures Fields(log[i].entry) == Fields(forged[i].entry) && Field(log[i].prevHash) == Field(forged[i].prevHash)
      {
        HashShape(hash, log, i);
        assert RowPayload(log[i]) == RowPayload(forged[i]);
        BarFreeIsDetermined(log[i].entry, log[i].prevHash, forged[i].entry, forged[i].prevHash);
      }
    }
  }

  lemma PrefixHash(log: seq<Row>, i: nat, f: Entry, k: nat)
    requires i < |log| && k <= |log|
    ensures LastHash(log[i := log[i].(entry := f)][..k]) == LastHash(log[..k])
  {
    assert k > 0 ==> log[i := log[i].(entry := f)][k - 1].contentHash == log[k - 1].contentHash;
  }

  /** Replacing an entry by one of the same payload shows nowhere in the chain. */
  lemma SamePayloadKeepsChain(hash: string -> string, log: seq<Row>, i: nat, f: Entry)
    requires Intact(hash, log) && i < |log| && Payload(f, log[i].prevHash) == RowPayload(log[i])
    ensures var forged := log[i := log[i].(entry := f)];
            Intact(hash, forged) && LastHash(forged) == LastHash(log) && SamePayloads(log, forged)
  {
    var forged := log[i := log[i].(entry := f)];
    assert RowPayload(forged[i]) == Payload(f, log[i].prevHash);
    hide Payload;
    hide RowPayload;
    hide LastHash;
    PrefixHash(log, i, f, |log|);
    assert forged[..|log|] == forged && log[..|log|] == log;
    forall k | 0 <= k < |log|
      ensures forged[k].prevHash == LastHash(forged[..k]) && forged[k].contentHash == hash(RowPayload(forged[k]))
    {
      PrefixHash(log, i, f, k);
      assert log[k].contentHash == hash(RowPayload(log[k])) && log[k].prevHash == LastHash(log[..k]);
    }
  }

  /**
   * Only such logs: if a field of some row holds a bar, there is an intact log with the same payloads and the same
   * hashes whose texts differ, so the chain does not show that edit.
   */
  lemma BarHidesAnEdit(hash: string -> string, log: seq<Row>) returns (forged: seq<Row>)
    requires Intact(hash, log) && !BarFreeLog(log)
    ensures Intact(hash, forged) && LastHash(forged) == LastHash(log) && SamePayloads(log, forged)
    ensures !SameTexts(log, forged)
  {
    hide Fields;
    hide Field;
    hide Payload;
    hide BarFree;
    var i :| 0 <= i < |log| && !BarFree(Fields(log[i].entry));
    var f := BarIsNotDetermined(log[i].entry, log[i].prevHash);
    forged := log[i := log[i].(entry := f)];
    hide Intact;
    hide LastHash;
    hide SamePayloads;
    SamePayloadKeepsChain(hash, log, i, f);
    assert forged[i].entry == f;
  }
}
