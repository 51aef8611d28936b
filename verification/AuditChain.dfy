/**
 The audit hash chain (packages/audit/src/audit.service.ts): the verification loop and what an
 accepted chain proves about its rows.  SHA-256 is a parameter `sha` that yields hex text; nothing
 assumes it is injective, and the tamper theorem names the colliding rows instead.
 */
module AuditChain {
  import opened Wrappers

  datatype ChainRow = ChainRow(
    eventId: string,
    occurredAt: Option<string>,
    tenancyId: Option<string>,
    actorId: Option<string>,
    entity: Option<string>,
    entityId: Option<string>,
    operation: Option<string>,
    oldData: Option<string>,
    newData: Option<string>,
    previousHash: Option<string>,
    rowHash: string)

  datatype Verification =
    | Valid(totalChecked: nat)
    | Broken(totalChecked: nat, firstBrokenEventId: string)

  function Or(value: Option<string>, default: string): string {
    if value.Some? then value.value else default
  }

  function Join(parts: seq<string>): string {
    if |parts| == 0 then "" else if |parts| == 1 then parts[0] else parts[0] + "|" + Join(parts[1..])
  }

  function Fields(row: ChainRow): seq<string> {
    [row.eventId, Or(row.occurredAt, ""), Or(row.tenancyId, ""), Or(row.actorId, ""), Or(row.entity, ""),
     Or(row.entityId, ""), Or(row.operation, ""), Or(row.oldData, ""), Or(row.newData, "")]
  }

  /** The ten fields of a row as they are printed, the link last. */
  function Printed(row: ChainRow): (fields: seq<string>)
    ensures |fields| == 10
  {
    Fields(row) + [Or(row.previousHash, "GENESIS")]
  }

  /** The text that is hashed for a row. */
  function Payload(row: ChainRow): string {
    Join(Printed(row))
  }

  predicate IsHex(s: string) {
    forall i :: 0 <= i < |s| ==> '0' <= s[i] <= '9' || 'a' <= s[i] <= 'f'
  }

  /** What `createHash('sha256')...digest('hex')` returns on every text: 64 hex digits. */
  ghost predicate HexDigest(sha: string -> string) {
    forall x :: |sha(x)| == 64 && IsHex(sha(x))
  }

  /** Two different payloads with the same digest. */
  ghost predicate Collision(sha: string -> string, a: ChainRow, b: ChainRow) {
    Payload(a) != Payload(b) && sha(Payload(a)) == sha(Payload(b))
  }

  // ----- The chain -----

  /** JavaScript's test `!previousEventId`: no row yet, or a row whose id is the empty text. */
  predicate StartsChain(rows: seq<ChainRow>, i: nat)
    requires i < |rows|
  {
    i == 0 || rows[i - 1].eventId == ""
  }

  predicate LinkHolds(rows: seq<ChainRow>, i: nat)
    requires i < |rows|
  {
    if StartsChain(rows, i) then rows[i].previousHash == None
    else rows[i].previousHash == Some(rows[i - 1].rowHash)
  }

  predicate RowHolds(sha: string -> string, rows: seq<ChainRow>, i: nat)
    requires i < |rows|
  {
    LinkHolds(rows, i) && rows[i].rowHash == sha(Payload(rows[i]))
  }

  predicate Accepted(sha: string -> string, rows: seq<ChainRow>) {
    forall i :: 0 <= i < |rows| ==> RowHolds(sha, rows, i)
  }

  /** The event a broken row is reported under: the row before it when a link is wrong. */
  function Blamed(rows: seq<ChainRow>, i: nat): string
    requires i < |rows|
  {
    if !StartsChain(rows, i) && !LinkHolds(rows, i) then rows[i - 1].eventId else rows[i].eventId
  }

  /** The loop of `verifyChain`: it accepts exactly chains, and reports the first row that breaks one. */
  method VerifyChain(sha: string -> string, rows: seq<ChainRow>) returns (r: Verification)
    ensures r.Valid? <==> Accepted(sha, rows)
    ensures r.Valid? ==> r.totalChecked == |rows|
    ensures r.Broken? ==>
              && 0 < r.totalChecked <= |rows|
              && Accepted(sha, rows[..r.totalChecked - 1])
              && !RowHolds(sha, rows, r.totalChecked - 1)
              && r.firstBrokenEventId == Blamed(rows, r.totalChecked - 1)
  {
    var previousExpectedHash: Option<string> := None;
    var previousEventId: Option<string> := None;
    var totalChecked := 0;
    for i := 0 to |rows|
      invariant totalChecked == i
      invariant previousEventId == if i == 0 then None else Some(rows[i - 1].eventId)
      invariant i > 0 ==> previousExpectedHash == Some(rows[i - 1].rowHash)
      invariant forall k :: 0 <= k < i ==> RowHolds(sha, rows, k)
    {
      var row := rows[i];
      totalChecked := totalChecked + 1;
      assert forall k | 0 <= k < i :: RowHolds(sha, rows[..i], k) == RowHolds(sha, rows, k);
      var first := previousEventId == None || previousEventId == Some("");
      if first && row.previousHash != None {
        assert !LinkHolds(rows, i) && !RowHolds(sha, rows, i);
        return Broken(totalChecked, row.eventId);
      }
      if !first && row.previousHash != previousExpectedHash {
        assert !LinkHolds(rows, i) && !RowHolds(sha, rows, i);
        return Broken(totalChecked, previousEventId.value);
      }
      var expectedHash := sha(Payload(row));
      if expectedHash != row.rowHash {
        assert LinkHolds(rows, i) && !RowHolds(sha, rows, i);
        return Broken(totalChecked, row.eventId);
      }
      previousExpectedHash := Some(expectedHash);
      previousEventId := Some(row.eventId);
    }
    return Valid(totalChecked);
  }

  // ----- Reading the link back out of a payload -----

  /** The text after the last `|`. */
  function LastField(s: string): string {
    if s == "" || s[|s| - 1] == '|' then "" else LastField(s[..|s| - 1]) + [s[|s| - 1]]
  }

  lemma {:induction false} LastFieldOf(prefix: string, tail: string)
    requires '|' !in tail
    ensures LastField(prefix + "|" + tail) == tail
  {
    var s := prefix + "|" + tail;
    if tail != "" {
      var n := |tail| - 1;
      assert s[..|s| - 1] == prefix + "|" + tail[..n];
      LastFieldOf(prefix, tail[..n]);
      assert tail == tail[..n] + [tail[n]];
    }
  }

  lemma {:induction false} JoinLast(parts: seq<string>, last: string)
    requires |parts| > 0
    ensures Join(parts + [last]) == Join(parts) + "|" + last
  {
    if |parts| > 1 {
      assert (parts + [last])[1..] == parts[1..] + [last];
      JoinLast(parts[1..], last);
    }
  }

  lemma {:induction false} LastFieldIsPlain(s: string)
    ensures '|' !in LastField(s)
  {
    if s != "" && s[|s| - 1] != '|' {
      LastFieldIsPlain(s[..|s| - 1]);
    }
  }

  /** Whatever the other fields are, the link can be read back exactly when it has no separator itself. */
  lemma LinkIsRecoverable(row: ChainRow)
    ensures LastField(Payload(row)) == Or(row.previousHash, "GENESIS") <==> '|' !in Or(row.previousHash, "GENESIS")
  {
    LastFieldIsPlain(Payload(row));
    JoinLast(Fields(row), Or(row.previousHash, "GENESIS"));
    if '|' !in Or(row.previousHash, "GENESIS") {
      LastFieldOf(Join(Fields(row)), Or(row.previousHash, "GENESIS"));
    }
  }

  lemma {:induction false} JoinAppend(xs: seq<string>, ys: seq<string>)
    requires |xs| > 0 && |ys| > 0
    ensures Join(xs + ys) == Join(xs) + "|" + Join(ys)
  {
    if |xs| == 1 {
      assert (xs + ys)[1..] == ys;
    } else {
      assert (xs + ys)[1..] == xs[1..] + ys;
      JoinAppend(xs[1..], ys);
    }
  }

  // ----- When a payload determines the fields -----

  /** Any ten texts are the printed fields of a row. */
  function RowOf(fields: seq<string>): (row: ChainRow)
    requires |fields| == 10
    ensures Printed(row) == fields
  {
    ChainRow(fields[0], Some(fields[1]), Some(fields[2]), Some(fields[3]), Some(fields[4]), Some(fields[5]),
             Some(fields[6]), Some(fields[7]), Some(fields[8]), Some(fields[9]), "")
  }

  lemma JoinReplaced(before: seq<string>, pair: seq<string>, other: seq<string>, after: seq<string>)
    requires pair != [] && other != [] && Join(pair) == Join(other)
    ensures Join(before + (pair + after)) == Join(before + (other + after))
  {
    assert after == [] ==> pair + after == pair && other + after == other;
    if after != [] {
      JoinAppend(pair, after);
      JoinAppend(other, after);
    }
    assert before == [] ==> before + (pair + after) == pair + after && before + (other + after) == other + after;
    if before != [] {
      JoinAppend(before, pair + after);
      JoinAppend(before, other + after);
    }
  }

  lemma CutAtBar(s: string) returns (a: string, b: string)
    requires '|' in s
    ensures s == a + "|" + b
  {
    var i :| 0 <= i < |s| && s[i] == '|';
    a, b := s[..i], s[i + 1..];
  }

  lemma JoinPair(a: string, b: string)
    ensures Join([a, b]) == a + "|" + b
  {
    assert [a, b][1..] == [b];
  }

  /** Two neighbouring fields, one of which contains the separator, joined alike by two others. */
  lemma MoveBar(x: string, y: string) returns (moved: seq<string>)
    requires '|' in x || '|' in y
    ensures |moved| == 2 && Join(moved) == Join([x, y]) && |moved[0]| != |x|
  {
    JoinPair(x, y);
    if '|' in x {
      var a, b := CutAtBar(x);
      moved := [a, b + "|" + y];
      JoinPair(a, b + "|" + y);
    } else {
      var a, b := CutAtBar(y);
      moved := [x + "|" + a, b];
      JoinPair(x + "|" + a, b);
    }
  }

  lemma FieldsAround(fields: seq<string>, k: nat)
    requires k + 2 <= |fields|
    ensures fields == fields[..k] + ([fields[k], fields[k + 1]] + fields[k + 2..])
  {
  }

  /** A separator inside any field can move to the neighbouring field. */
  lemma SeparatorMovesUnnoticed(row: ChainRow, i: nat) returns (other: ChainRow)
    requires i < 10 && '|' in Printed(row)[i]
    ensures Payload(other) == Payload(row) && Printed(other) != Printed(row)
  {
    var fields := Printed(row);
    var k := if i < 9 then i else 8;
    var before, after := fields[..k], fields[k + 2..];
    var moved := MoveBar(fields[k], fields[k + 1]);
    FieldsAround(fields, k);
    JoinReplaced(before, [fields[k], fields[k + 1]], moved, after);
    other := RowOf(before + (moved + after));
    assert Printed(other)[k] == moved[0];
  }

  /** The entity and its id, both free text, with a separator on either side of their border. */
  lemma EntityBorderMoves(row: ChainRow, x: string, y: string, z: string)
    ensures Payload(row.(entity := Some(x + "|" + y), entityId := Some(z)))
         == Payload(row.(entity := Some(x), entityId := Some(y + "|" + z)))
  {
    var a, b := row.(entity := Some(x + "|" + y), entityId := Some(z)), row.(entity := Some(x), entityId := Some(y + "|" + z));
    var before, after := Printed(row)[..4], Printed(row)[6..];
    JoinPair(x + "|" + y, z);
    JoinPair(x, y + "|" + z);
    assert x + "|" + y + "|" + z == x + "|" + (y + "|" + z);
    JoinReplaced(before, [x + "|" + y, z], [x, y + "|" + z], after);
    assert Printed(a) == before + ([x + "|" + y, z] + after);
    assert Printed(b) == before + ([x, y + "|" + z] + after);
  }

  /** So an accepted chain stays accepted when a row about one entity is rewritten to be about another. */
  lemma RewrittenEntityIsAccepted(sha: string -> string, rows: seq<ChainRow>, i: nat, x: string, y: string, z: string)
    requires Accepted(sha, rows) && i < |rows|
    requires rows[i].entity == Some(x + "|" + y) && rows[i].entityId == Some(z)
    ensures var other := rows[i].(entity := Some(x), entityId := Some(y + "|" + z));
            other.entity != rows[i].entity && Accepted(sha, rows[i := other])
  {
    var other := rows[i].(entity := Some(x), entityId := Some(y + "|" + z));
    EntityBorderMoves(rows[i], x, y, z);
    assert rows[i] == rows[i].(entity := Some(x + "|" + y), entityId := Some(z));
    assert |x + "|" + y| > |x|;
    var changed := rows[i := other];
    forall k | 0 <= k < |rows|
      ensures RowHolds(sha, changed, k)
    {
      assert RowHolds(sha, rows, k);
    }
  }

  function Bars(s: string): nat {
    if s == "" then 0 else (if s[0] == '|' then 1 else 0) + Bars(s[1..])
  }

  function BarsInAll(parts: seq<string>): nat {
    if parts == [] then 0 else Bars(parts[0]) + BarsInAll(parts[1..])
  }

  lemma {:induction false} BarsAppend(a: string, b: string)
    ensures Bars(a + b) == Bars(a) + Bars(b)
  {
    if a == "" {
      assert a + b == b;
    } else {
      BarsAppend(a[1..], b);
      assert (a + b)[1..] == a[1..] + b;
    }
  }

  lemma {:induction false} NoBars(s: string)
    ensures Bars(s) == 0 <==> '|' !in s
  {
    if s != "" {
      NoBars(s[1..]);
    }
  }

  lemma {:induction false} NoBarsInAll(parts: seq<string>)
    ensures BarsInAll(parts) == 0 <==> forall i :: 0 <= i < |parts| ==> '|' !in parts[i]
  {
    if parts != [] {
      NoBars(parts[0]);
      NoBarsInAll(parts[1..]);
      assert forall i :: 0 < i < |parts| ==> parts[i] == parts[1..][i - 1];
    }
  }

  /** A join has one separator fewer than it has parts, and those of the parts. */
  lemma {:induction false} BarsOfJoin(parts: seq<string>)
    requires parts != []
    ensures Bars(Join(parts)) == |parts| - 1 + BarsInAll(parts)
  {
    if |parts| > 1 {
      BarsOfJoin(parts[1..]);
      BarsAppend(parts[0] + "|", Join(parts[1..]));
      BarsAppend(parts[0], "|");
    }
  }

  lemma PlainHeads(a: string, x: string, b: string, y: string)
    requires '|' !in a && '|' !in b && a + "|" + x == b + "|" + y
    ensures a == b && x == y
  {
    var s, t := a + "|" + x, b + "|" + y;
    assert s[|a|] == '|' && t[|b|] == '|';
    assert forall i :: 0 <= i < |a| ==> s[i] == a[i];
    assert forall i :: 0 <= i < |b| ==> t[i] == b[i];
    assert |a| == |b|;
    assert s[..|a|] == a && t[..|b|] == b && s[|a| + 1..] == x && t[|b| + 1..] == y;
  }

  lemma {:induction false} PlainJoinsDiffer(a: seq<string>, b: seq<string>)
    requires |a| == |b| && a != [] && Join(a) == Join(b)
    requires forall i :: 0 <= i < |a| ==> '|' !in a[i] && '|' !in b[i]
    ensures a == b
  {
    if |a| > 1 {
      PlainHeads(a[0], Join(a[1..]), b[0], Join(b[1..]));
      PlainJoinsDiffer(a[1..], b[1..]);
      assert a == [a[0]] + a[1..] && b == [b[0]] + b[1..];
    }
  }

  lemma PlainPayload(row: ChainRow, other: ChainRow)
    requires Payload(other) == Payload(row)
    requires forall i :: 0 <= i < 10 ==> '|' !in Printed(row)[i]
    ensures Printed(other) == Printed(row)
  {
    BarsOfJoin(Printed(row));
    BarsOfJoin(Printed(other));
    NoBarsInAll(Printed(row));
    NoBarsInAll(Printed(other));
    PlainJoinsDiffer(Printed(row), Printed(other));
  }

  /** Every row with this payload has these printed fields. */
  ghost predicate Determined(row: ChainRow) {
    forall other :: Payload(other) == Payload(row) ==> Printed(other) == Printed(row)
  }

  /** A payload determines the printed fields of its row exactly when none of them contains the separator. */
  lemma PayloadDeterminesFieldsIff(row: ChainRow)
    ensures Determined(row) <==> forall i :: 0 <= i < 10 ==> '|' !in Printed(row)[i]
  {
    if Determined(row) {
      forall i | 0 <= i < 10 ensures '|' !in Printed(row)[i] {
        if '|' in Printed(row)[i] {
          var other := SeparatorMovesUnnoticed(row, i);
        }
      }
    } else {
      var other :| Payload(other) == Payload(row) && Printed(other) != Printed(row);
      if forall i :: 0 <= i < 10 ==> '|' !in Printed(row)[i] {
        PlainPayload(row, other);
      }
    }
  }

  // ----- Tamper evidence -----

  /** `event_id` is a uuid column: an id is never the empty text. */
  predicate IdsPresent(rows: seq<ChainRow>) {
    forall i :: 0 <= i < |rows| ==> rows[i].eventId != ""
  }

  predicate SamePayloads(a: seq<ChainRow>, b: seq<ChainRow>) {
    |a| == |b| && forall i :: 0 <= i < |a| ==> Payload(a[i]) == Payload(b[i])
  }

  ghost predicate SomeCollision(sha: string -> string, a: seq<ChainRow>, b: seq<ChainRow>) {
    exists i, j :: 0 <= i < |a| && 0 <= j < |b| && Collision(sha, a[i], b[j])
  }

  /** The link text of the last row: `GENESIS` alone, else the digest of the row before it. */
  lemma LastLink(sha: string -> string, rows: seq<ChainRow>)
    requires HexDigest(sha) && Accepted(sha, rows) && IdsPresent(rows) && rows != []
    ensures var link := LastField(Payload(rows[|rows| - 1]));
            if |rows| == 1 then link == "GENESIS"
            else IsHex(link) && link == rows[|rows| - 2].rowHash
  {
    var n := |rows| - 1;
    assert RowHolds(sha, rows, n);
    if n > 0 {
      assert RowHolds(sha, rows, n - 1);
    }
    LinkIsRecoverable(rows[n]);
  }

  lemma AcceptedPrefix(sha: string -> string, rows: seq<ChainRow>, n: nat)
    requires Accepted(sha, rows) && n <= |rows|
    ensures Accepted(sha, rows[..n])
  {
    forall i | 0 <= i < n
      ensures RowHolds(sha, rows[..n], i)
    {
      assert RowHolds(sha, rows, i);
    }
  }

  /** Rows that end in one payload are both first rows, or follow rows with one row hash. */
  lemma EqualLastPayloads(sha: string -> string, a: seq<ChainRow>, b: seq<ChainRow>)
    requires HexDigest(sha)
    requires Accepted(sha, a) && Accepted(sha, b) && IdsPresent(a) && IdsPresent(b)
    requires a != [] && b != [] && Payload(a[|a| - 1]) == Payload(b[|b| - 1])
    ensures |a| == 1 <==> |b| == 1
    ensures |a| > 1 ==> a[|a| - 2].rowHash == b[|b| - 2].rowHash
  {
    LastLink(sha, a);
    LastLink(sha, b);
    assert !IsHex("GENESIS") by { assert "GENESIS"[0] == 'G'; }
  }

  lemma ExtendVerdict(sha: string -> string, a: seq<ChainRow>, b: seq<ChainRow>)
    requires a != [] && b != [] && Payload(a[|a| - 1]) == Payload(b[|b| - 1])
    requires var a', b' := a[..|a| - 1], b[..|b| - 1]; SamePayloads(a', b') || SomeCollision(sha, a', b')
    ensures SamePayloads(a, b) || SomeCollision(sha, a, b)
  {
    var n, m := |a| - 1, |b| - 1;
    if SamePayloads(a[..n], b[..m]) {
      forall i | 0 <= i < |a|
        ensures Payload(a[i]) == Payload(b[i])
      {
        if i < n {
          assert a[..n][i] == a[i] && b[..m][i] == b[i];
        }
      }
    } else {
      var i, j :| 0 <= i < n && 0 <= j < m && Collision(sha, a[..n][i], b[..m][j]);
      assert Collision(sha, a[i], b[j]);
    }
  }

  /** Two accepted chains that end in one row hash have identical payloads, or exhibit a collision. */
  lemma {:induction false} TamperEvident(sha: string -> string, a: seq<ChainRow>, b: seq<ChainRow>)
    requires HexDigest(sha)
    requires Accepted(sha, a) && Accepted(sha, b) && IdsPresent(a) && IdsPresent(b)
    requires a != [] && b != [] && a[|a| - 1].rowHash == b[|b| - 1].rowHash
    ensures SamePayloads(a, b) || SomeCollision(sha, a, b)
    decreases |a|
  {
    var n, m := |a| - 1, |b| - 1;
    assert RowHolds(sha, a, n) && RowHolds(sha, b, m);
    if Payload(a[n]) != Payload(b[m]) {
      assert Collision(sha, a[n], b[m]);
    } else {
      EqualLastPayloads(sha, a, b);
      if n > 0 {
        AcceptedPrefix(sha, a, n);
        AcceptedPrefix(sha, b, m);
        TamperEvident(sha, a[..n], b[..m]);
      }
      ExtendVerdict(sha, a, b);
    }
  }

  /** In an accepted chain every later row links to the row before it exactly when no row before the last has an empty id. */
  lemma ChainLinksIff(sha: string -> string, rows: seq<ChainRow>)
    requires Accepted(sha, rows)
    ensures (forall i :: 0 < i < |rows| ==> rows[i].previousHash == Some(rows[i - 1].rowHash)) <==>
            (forall i :: 0 <= i < |rows| - 1 ==> rows[i].eventId != "")
  {
    forall i | 0 < i < |rows|
      ensures rows[i].previousHash == Some(rows[i - 1].rowHash) <==> rows[i - 1].eventId != ""
    {
      assert RowHolds(sha, rows, i);
    }
    if forall i :: 0 < i < |rows| ==> rows[i].previousHash == Some(rows[i - 1].rowHash) {
      forall i | 0 <= i < |rows| - 1 ensures rows[i].eventId != "" {
        assert rows[i + 1].previousHash == Some(rows[i + 1 - 1].rowHash);
      }
    }
  }
}
