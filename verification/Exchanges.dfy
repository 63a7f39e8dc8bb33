/**
 External mail exchanges, `exchanges-database.ts`. The sync job asks one index for the exchanges due by a
 horizon; the key is `time#id` and the bound `horizon~`, so the answer rests on `#` sorting below `~` and
 on index keys that never go stale.
 */
module Exchanges {
  import opened Options
  import opened Text

  datatype Status = Active | ActivationFailed

  function Name(s: Status): string {
    match s
    case Active => "active"
    case ActivationFailed => "activation_failed"
  }

  /** `fields` stands for the attributes that no index depends on. */
  datatype Row = Row(status: Status, nextSyncTime: string, gsi1pk: string, gsi1sk: string, fields: map<string, string>)

  /** A stored exchange is found by account and id. */
  datatype Key = Key(account: string, id: string)

  function Partition(s: Status): string {
    "EMX#" + Name(s)
  }

  function SortKey(nextSyncTime: string, id: string): string {
    nextSyncTime + "#" + id
  }

  /** A horizon that the time merely continues is the one on which the bounded range errs. */
  predicate Overshoots(time: string, horizon: string) {
    |horizon| < |time| && StartsWith(time, horizon) && time[|horizon|] < '~'
  }

  /** Times of one width, or a horizon of ISO characters with which the time does not begin. */
  predicate Comparable(time: string, horizon: string) {
    |time| == |horizon| || (AboveSeparator(horizon) && !StartsWith(time, horizon))
  }

  /** The bounded key range is exactly the times up to the horizon, and those that continue it. */
  lemma {:induction false} DueByKeyIff(time: string, id: string, horizon: string)
    requires AboveSeparator(horizon)
    ensures Below(SortKey(time, id), horizon + "~") <==> AtMost(time, horizon) || Overshoots(time, horizon)
  {
    BelowTotal(time, horizon);
    if AtMost(time, horizon) {
      UpToHorizon(time, id, horizon);
    } else if StartsWith(time, horizon) {
      assert time == horizon + time[|horizon|..] && time[|horizon|..] != "";
      assert SortKey(time, id) == horizon + (time[|horizon|..] + ("#" + id));
      BelowAfter(horizon, time[|horizon|..] + ("#" + id), "~");
      assert (time[|horizon|..] + ("#" + id))[0] == time[|horizon|];
    } else {
      assert SortKey(time, id) == time + ("#" + id);
      BelowApart(horizon, time, "~", "#" + id);
      BelowTotal(SortKey(time, id), horizon + "~");
    }
  }

  lemma {:induction false} UpToHorizon(time: string, id: string, horizon: string)
    requires AboveSeparator(horizon) && AtMost(time, horizon)
    ensures Below(SortKey(time, id), horizon + "~")
  {
    assert SortKey(time, id) == time + ("#" + id);
    if time == horizon {
      BelowAfter(time, "#" + id, "~");
    } else {
      BelowSeparated(time, horizon, id, "~");
    }
  }

  /** For comparable times the bounded key range is exactly the times up to the horizon. */
  lemma {:induction false} DueByKey(time: string, id: string, horizon: string)
    requires Comparable(time, horizon)
    ensures Below(SortKey(time, id), horizon + "~") <==> AtMost(time, horizon)
  {
    if |time| == |horizon| {
      DueByWidth(time, id, horizon);
    } else {
      DueByKeyIff(time, id, horizon);
    }
  }

  lemma {:induction false} DueByWidth(time: string, id: string, horizon: string)
    requires |time| == |horizon|
    ensures Below(SortKey(time, id), horizon + "~") <==> AtMost(time, horizon)
  {
    assert SortKey(time, id) == time + ("#" + id);
    BelowTotal(time, horizon);
    if time == horizon {
      BelowAfter(time, "#" + id, "~");
    } else if Below(time, horizon) {
      BelowWide(time, horizon, "#" + id, "~");
    } else {
      BelowWide(horizon, time, "~", "#" + id);
      BelowTotal(SortKey(time, id), horizon + "~");
    }
  }

  lemma {:induction false} PartitionTellsStatus(s: Status)
    ensures Partition(s) == "EMX#active" <==> s == Active
  {
    assert Partition(s)[4..] == Name(s) && "EMX#active"[4..] == "active";
  }

  class ExchangeTable {
    var rows: map<Key, Row>

    /** Every index key is the one the row's own fields give. */
    ghost predicate Valid()
      reads this
    {
      forall k :: k in rows ==>
        rows[k].gsi1pk == Partition(rows[k].status) && rows[k].gsi1sk == SortKey(rows[k].nextSyncTime, k.id)
    }

    constructor ()
      ensures Valid() && rows == map[]
    {
      rows := map[];
    }

    method CreateExternalExchange(account: string, id: string, status: Status, nextSyncTime: string,
                                  fields: map<string, string>)
      requires Valid()
      modifies this
      ensures Valid() && rows.Keys == old(rows.Keys) + {Key(account, id)}
      ensures forall k :: k in old(rows) && k != Key(account, id) ==> rows[k] == old(rows)[k]
      ensures var r := rows[Key(account, id)];
              r.status == status && r.nextSyncTime == nextSyncTime && r.fields == fields
    {
      var k := Key(account, id);
      rows := rows[k := Row(status, nextSyncTime, Partition(status), SortKey(nextSyncTime, id), fields)];
    }

    /**
     Sets status, time and the named fields, removes the cleared ones, and rewrites the index keys. An
     unconditional `UpdateItem`: a missing row comes into being with just these attributes. An update
     that sets and removes an attribute, or removes it twice, is refused.
     */
    method UpdateExternalExchange(account: string, id: string, status: Status, nextSyncTime: string,
                                  fields: seq<(string, string)>, clearFields: seq<string>)
      returns (ok: bool)
      requires Valid()
      modifies this
      ensures Valid()
      ensures ok <==> NoOverlap(fields, clearFields)
      ensures !ok ==> rows == old(rows)
      ensures ok ==> rows.Keys == old(rows.Keys) + {Key(account, id)}
      ensures ok ==> forall k :: k in old(rows) && k != Key(account, id) ==> rows[k] == old(rows)[k]
      ensures ok ==>
              var r := rows[Key(account, id)];
              && r.status == status && r.nextSyncTime == nextSyncTime
              && forall name :: Lookup(r.fields, name) ==
                   if name in clearFields then None
                   else if Written(fields, name).Some? then Written(fields, name)
                   else if Key(account, id) in old(rows) then Lookup(old(rows)[Key(account, id)].fields, name)
                   else None
    {
      ok := NoOverlap(fields, clearFields);
      if !ok {
        return;
      }
      var k := Key(account, id);
      var before := if k in rows then rows[k].fields else map[];
      var next := WriteFields(before, fields, clearFields);
      rows := rows[k := Row(status, nextSyncTime, Partition(status), SortKey(nextSyncTime, id), next)];
    }

    /** The attributes that the update expression sets and removes. */
    method WriteFields(before: map<string, string>, fields: seq<(string, string)>, clearFields: seq<string>)
      returns (next: map<string, string>)
      requires forall i :: 0 <= i < |fields| ==> fields[i].0 !in clearFields
      ensures forall name :: Lookup(next, name) ==
                if name in clearFields then None
                else if Written(fields, name).Some? then Written(fields, name)
                else Lookup(before, name)
    {
      next := before;
      for i := 0 to |fields|
        invariant forall name :: Lookup(next, name) ==
                    if Written(fields[..i], name).Some? then Written(fields[..i], name) else Lookup(before, name)
      {
        assert fields[..i + 1][..i] == fields[..i];
        next := next[fields[i].0 := fields[i].1];
      }
      assert fields[..|fields|] == fields;
      next := map name | name in next && name !in clearFields :: next[name];
    }

    method DeleteExternalExchange(account: string, id: string)
      requires Valid()
      modifies this
      ensures Valid() && rows == map k | k in old(rows) && k != Key(account, id) :: old(rows)[k]
    {
      rows := map k | k in rows && k != Key(account, id) :: rows[k];
    }

    /** The keys an index query selects: one partition, sort keys below a bound. */
    function Range(partition: string, bound: string): set<Key>
      reads this
    {
      set k | k in rows && rows[k].gsi1pk == partition && Below(rows[k].gsi1sk, bound)
    }

    /** Exactly the stored active exchanges whose time has come. */
    method ListExchangesDue(horizon: string) returns (due: set<Key>)
      requires Valid()
      requires forall k :: k in rows ==> Comparable(rows[k].nextSyncTime, horizon)
      ensures due == set k | k in rows && rows[k].status == Active && AtMost(rows[k].nextSyncTime, horizon)
    {
      due := Range("EMX#active", horizon + "~");
      forall k | k in rows
        ensures k in due <==> rows[k].status == Active && AtMost(rows[k].nextSyncTime, horizon)
      {
        PartitionTellsStatus(rows[k].status);
        DueByKey(rows[k].nextSyncTime, k.id, horizon);
      }
    }
  }

  /** No attribute is set and removed, and none is removed twice. */
  predicate NoOverlap(fields: seq<(string, string)>, clearFields: seq<string>) {
    && (forall i :: 0 <= i < |fields| ==> fields[i].0 !in clearFields)
    && forall i, j :: 0 <= i < j < |clearFields| ==> clearFields[i] != clearFields[j]
  }

  function Lookup(m: map<string, string>, name: string): Option<string> {
    if name in m then Some(m[name]) else None
  }

  /** The value a field list gives a name: the last one. */
  function Written(fields: seq<(string, string)>, name: string): Option<string> {
    if fields == [] then None
    else if fields[|fields| - 1].0 == name then Some(fields[|fields| - 1].1)
    else Written(fields[..|fields| - 1], name)
  }
}
