/**
 * The append-only audit log. Each row stores a hash of its joined fields and of the previous row's hash.
 * SHA-256 is a function of the log; what is used of it is that a digest is non-empty and holds no "|".
 */
module AuditChain {
  import opened Options
  import opened Text

  datatype Entry = Entry(
    kind: string, subjectType: Option<string>, subjectId: Option<string>, claim: Option<string>,
    sourceId: Option<string>, decision: Option<string>, detail: Option<string>)

  datatype Row = Row(entry: Entry, prevHash: Option<string>, contentHash: string)

  /** Ruby's `join` writes nil as the empty string. */
  function Field(x: Option<string>): string
  {
    if x.Some? then x.value else ""
  }

  function Fields(e: Entry): seq<string>
  {
    [e.kind, Field(e.subjectType), Field(e.subjectId), Field(e.claim), Field(e.sourceId), Field(e.decision),
     Field(e.detail)]
  }

  /** The joined payload `compute_content_hash` digests. */
  function Payload(e: Entry, prev: Option<string>): string
  {
    Join("|", Fields(e) + [Field(prev)])
  }

  function RowPayload(r: Row): string
  {
    Payload(r.entry, r.prevHash)
  }

  /** A digest is non-empty hex text. */
  ghost predicate Digest(hash: string -> string)
  {
    forall s :: hash(s) != "" && '|' !in hash(s)
  }

  function LastHash(rows: seq<Row>): Option<string>
  {
    if rows == [] then None else Some(rows[|rows| - 1].contentHash)
  }

  /** The chain is intact: every stored hash is the one recomputed from the row and its predecessor. */
  ghost predicate Intact(hash: string -> string, rows: seq<Row>)
  {
    forall i :: 0 <= i < |rows| ==>
      rows[i].prevHash == LastHash(rows[..i]) && rows[i].contentHash == hash(RowPayload(rows[i]))
  }

  /** The row `create!` writes. */
  function Chained(hash: string -> string, rows: seq<Row>, e: Entry): Row
  {
    Row(e, LastHash(rows), hash(Payload(e, LastHash(rows))))
  }

  function AppendAll(hash: string -> string, rows: seq<Row>, entries: seq<Entry>): seq<Row>
    decreases |entries|
  {
    if entries == [] then rows else AppendAll(hash, rows + [Chained(hash, rows, entries[0])], entries[1..])
  }

  class AuditLog {
    const hash: string -> string
    var rows: seq<Row>

    constructor (hash: string -> string)
      ensures this.hash == hash && rows == []
    {
      this.hash := hash;
      rows := [];
    }

    /** `create!` with its `chain_hashes` callback; a blank kind fails validation and writes nothing. */
    method Append(e: Entry) returns (ok: bool)
      modifies this
      ensures ok <==> !Blank(e.kind)
      ensures rows == if ok then old(rows) + [Chained(hash, old(rows), e)] else old(rows)
    {
      ok := !Blank(e.kind);
      if ok {
        rows := rows + [Chained(hash, rows, e)];
      }
    }

    /** `chain_intact?` */
    method ChainIntact() returns (ok: bool)
      ensures ok <==> Intact(hash, rows)
    {
      hide Payload;
      hide RowPayload;
      var prev: Option<string> := None;
      for i := 0 to |rows|
        invariant prev == LastHash(rows[..i])
        invariant forall j :: 0 <= j < i ==>
                    rows[j].prevHash == LastHash(rows[..j]) && rows[j].contentHash == hash(RowPayload(rows[j]))
      {
        if rows[i].prevHash != prev {
          return false;
        }
        if rows[i].contentHash != hash(RowPayload(rows[i])) {
          return false;
        }
        prev := Some(rows[i].contentHash);
      }
      return true;
    }
  }

  /** Appending keeps an intact chain intact, and only appending to an intact one can give an intact one. */
  lemma AppendKeepsIntact(hash: string -> string, rows: seq<Row>, e: Entry)
    ensures Intact(hash, rows + [Chained(hash, rows, e)]) <==> Intact(hash, rows)
  {
    hide RowPayload;
    hide Payload;
    var now := rows + [Chained(hash, rows, e)];
    assert now[..|rows|] == rows;
    forall i | 0 <= i < |rows|
      ensures now[..i] == rows[..i] && now[i] == rows[i]
    {
    }
    assert RowPayload(now[|rows|]) == Payload(e, LastHash(rows)) by {
      RowPayloadOf(hash, rows, e);
    }
  }

  lemma RowPayloadOf(hash: string -> string, rows: seq<Row>, e: Entry)
    ensures RowPayload(Chained(hash, rows, e)) == Payload(e, LastHash(rows))
  {
  }

  /** Every log built by appending is intact. */
  lemma {:induction false} AppendedIsIntact(hash: string -> string, rows: seq<Row>, entries: seq<Entry>)
    requires Intact(hash, rows)
    ensures Intact(hash, AppendAll(hash, rows, entries))
    ensures |AppendAll(hash, rows, entries)| == |rows| + |entries|
    decreases |entries|
  {
    hide Chained;
    hide Intact;
    if entries == [] {
    } else {
      AppendKeepsIntact(hash, rows, entries[0]);
      AppendedIsIntact(hash, rows + [Chained(hash, rows, entries[0])], entries[1..]);
    }
  }

  // ---- Tamper evidence ----

  lemma {:induction false} JoinLast(sep: string, parts: seq<string>, x: string)
    requires parts != []
    ensures Join(sep, parts + [x]) == Join(sep, parts) + sep + x
  {
    if |parts| == 1 {
      assert (parts + [x])[1..] == [x];
    } else {
      JoinLast(sep, parts[1..], x);
      assert (parts + [x])[1..] == parts[1..] + [x];
    }
  }

  lemma LongerTailHoldsBar(x: string, p: string, y: string, q: string)
    requires x + "|" + p == y + "|" + q && |x| < |y|
    ensures '|' in p
  {
    var s := x + "|" + p;
    assert s[|y|] == (y + "|" + q)[|y|] == '|';
    assert p[|y| - |x| - 1] == s[|y|];
  }

  /** What follows the last "|" can be read back. */
  lemma LastFieldDecodes(x: string, p: string, y: string, q: string)
    requires x + "|" + p == y + "|" + q && '|' !in p && '|' !in q
    ensures p == q
  {
    if |x| < |y| {
      LongerTailHoldsBar(x, p, y, q);
    } else if |y| < |x| {
      LongerTailHoldsBar(y, q, x, p);
    } else {
      assert p == (x + "|" + p)[|x| + 1..] == (y + "|" + q)[|y| + 1..] == q;
    }
  }

  /** The previous hash can be decoded from a row's joined payload. */
  lemma PrevDecodes(hash: string -> string, a: seq<Row>, b: seq<Row>)
    requires Digest(hash) && Intact(hash, a) && Intact(hash, b) && a != [] && b != []
    requires RowPayload(a[|a| - 1]) == RowPayload(b[|b| - 1])
    ensures LastHash(a[..|a| - 1]) == LastHash(b[..|b| - 1])
  {
    hide Fields;
    var m, n := |a| - 1, |b| - 1;
    var p, q := LastHash(a[..m]), LastHash(b[..n]);
    assert a[m].prevHash == p && b[n].prevHash == q;
    HashShape(hash, a, m);
    HashShape(hash, b, n);
    FieldsNonEmpty(a[m].entry);
    FieldsNonEmpty(b[n].entry);
    JoinLast("|", Fields(a[m].entry), Field(p));
    JoinLast("|", Fields(b[n].entry), Field(q));
    LastFieldDecodes(Join("|", Fields(a[m].entry)), Field(p), Join("|", Fields(b[n].entry)), Field(q));
  }

  lemma FieldsNonEmpty(e: Entry)
    ensures Fields(e) != []
  {
  }

  lemma HashShape(hash: string -> string, rows: seq<Row>, n: nat)
    requires Digest(hash) && Intact(hash, rows) && n <= |rows|
    ensures var p := LastHash(rows[..n]); '|' !in Field(p) && (p.Some? ==> p.value != "")
  {
    if n > 0 {
      assert rows[n - 1].contentHash == hash(RowPayload(rows[n - 1]));
    }
  }

  ghost predicate SamePayloads(a: seq<Row>, b: seq<Row>)
  {
    |a| == |b| && forall i :: 0 <= i < |a| ==> RowPayload(a[i]) == RowPayload(b[i])
  }

  /** Two different payloads of these logs with the same digest. */
  ghost predicate Collision(hash: string -> string, a: seq<Row>, b: seq<Row>)
  {
    exists i, j :: 0 <= i < |a| && 0 <= j < |b| &&
      RowPayload(a[i]) != RowPayload(b[j]) && hash(RowPayload(a[i])) == hash(RowPayload(b[j]))
  }

  /**
   * Tamper evidence: two intact logs with the same last content hash have the same length and the same
   * joined payload in every row, unless they exhibit a hash collision between two of their payloads.
   */
  lemma {:induction false} SameHeadSameLog(hash: string -> string, a: seq<Row>, b: seq<Row>)
    requires Digest(hash) && Intact(hash, a) && Intact(hash, b)
    requires LastHash(a) == LastHash(b)
    ensures SamePayloads(a, b) || Collision(hash, a, b)
    decreases |a|
  {
    hide RowPayload;
    hide Digest;
    if a == [] {
    } else {
      var m, n := |a| - 1, |b| - 1;
      SameHeadHash(hash, a, b);
      if RowPayload(a[m]) == RowPayload(b[n]) {
        PrevDecodes(hash, a, b);
        PrefixIntact(hash, a, m);
        PrefixIntact(hash, b, n);
        SameHeadSameLog(hash, a[..m], b[..n]);
        ExtendAgreement(hash, a, b);
      }
    }
  }

  lemma SameHeadHash(hash: string -> string, a: seq<Row>, b: seq<Row>)
    requires Intact(hash, a) && Intact(hash, b) && LastHash(a) == LastHash(b) && a != []
    ensures b != [] && hash(RowPayload(a[|a| - 1])) == hash(RowPayload(b[|b| - 1]))
  {
    hide RowPayload;
  }

  /** Agreement, or a collision, before the last rows carries over to the whole logs. */
  lemma ExtendAgreement(hash: string -> string, a: seq<Row>, b: seq<Row>)
    requires a != [] && b != [] && RowPayload(a[|a| - 1]) == RowPayload(b[|b| - 1])
    requires var p, q := a[..|a| - 1], b[..|b| - 1]; SamePayloads(p, q) || Collision(hash, p, q)
    ensures SamePayloads(a, b) || Collision(hash, a, b)
  {
    hide RowPayload;
    var p, q := a[..|a| - 1], b[..|b| - 1];
    if Collision(hash, p, q) {
      var i, j :| 0 <= i < |p| && 0 <= j < |q| && RowPayload(p[i]) != RowPayload(q[j])
                  && hash(RowPayload(p[i])) == hash(RowPayload(q[j]));
      assert p[i] == a[i] && q[j] == b[j];
    } else {
      forall i | 0 <= i < |a|
        ensures RowPayload(a[i]) == RowPayload(b[i])
      {
        assert i < |p| ==> p[i] == a[i] && q[i] == b[i];
      }
    }
  }

  /**
   * Any edit, deletion, insertion or reorder that keeps the last content hash makes `chain_intact?`
   * false, unless it comes with a hash collision.
   */
  lemma TamperingIsDetected(hash: string -> string, log: seq<Row>, forged: seq<Row>)
    requires Digest(hash) && Intact(hash, log) && LastHash(forged) == LastHash(log)
    requires !SamePayloads(log, forged)
    ensures !Intact(hash, forged) || Collision(hash, log, forged)
  {
    hide Intact;
    hide SamePayloads;
    hide Collision;
    hide Digest;
    if Intact(hash, forged) {
      SameHeadSameLog(hash, log, forged);
    }
  }

  /** The chain alone does not show a cut at the end: every prefix of an intact log is intact. */
  lemma PrefixIntact(hash: string -> string, rows: seq<Row>, n: nat)
    requires Intact(hash, rows) && n <= |rows|
    ensures Intact(hash, rows[..n])
  {
    forall i | 0 <= i < n
      ensures rows[..n][i] == rows[i] && rows[..n][..i] == rows[..i]
    {
    }
  }

  /** The joined payload does not determine the fields: a "|" inside a field moves the boundary. */
  lemma PayloadIsNotPerField(prev: Option<string>)
    ensures var e := Entry("k", Some("x|"), None, None, None, None, None);
            var f := Entry("k", Some("x"), Some("|"), None, None, None, None);
            e != f && Payload(e, prev) == Payload(f, prev)
  {
    BarMoves(["", "", "", "", Field(prev)]);
    PayloadStarts(Some("x|"), None, prev);
    PayloadStarts(Some("x"), Some("|"), prev);
    hide *;
  }

  /** The payload of an entry that only names a kind and a subject. */
  lemma PayloadStarts(subjectType: Option<string>, subjectId: Option<string>, prev: Option<string>)
    ensures Payload(Entry("k", subjectType, subjectId, None, None, None, None), prev) ==
            "k" + "|" + Join("|", [Field(subjectType), Field(subjectId)] + ["", "", "", "", Field(prev)])
  {
    hide Join;
    var parts := [Field(subjectType), Field(subjectId)] + ["", "", "", "", Field(prev)];
    JoinFirst("|", "k", parts);
    assert Fields(Entry("k", subjectType, subjectId, None, None, None, None)) + [Field(prev)] == ["k"] + parts;
  }

  lemma JoinFirst(sep: string, x: string, parts: seq<string>)
    requires parts != []
    ensures Join(sep, [x] + parts) == x + sep + Join(sep, parts)
  {
    assert ([x] + parts)[1..] == parts;
  }

  lemma BarMoves(rest: seq<string>)
    requires rest != []
    ensures Join("|", ["x|", ""] + rest) == Join("|", ["x", "|"] + rest)
  {
    var r := Join("|", rest);
    assert ["x|", ""] + rest == ["x|"] + ([""] + rest) && ["x", "|"] + rest == ["x"] + (["|"] + rest);
    JoinFirst("|", "", rest);
    JoinFirst("|", "|", rest);
    JoinFirst("|", "x|", [""] + rest);
    JoinFirst("|", "x", ["|"] + rest);
    assert "x|" + "|" + ("" + "|" + r) == "x" + "|" + ("|" + "|" + r);
  }
}
