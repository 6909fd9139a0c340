/** The key recovery sweep over the services table (crates/pier-core/src/crypto_recovery.rs). */
module Recovery {
  import opened Text
  import opened Crypto
  import Base64

  type ServiceId = nat

  /** The env_json column. */
  type Table = map<ServiceId, Option<string>>

  datatype Row = Row(id: ServiceId, enc: string)

  /** Chance for one row: the nonce drawn if it is sealed again, and whether the update is written. */
  datatype Draw = Draw(nonce: Nonce, written: bool)

  datatype Fate = AlreadyOk | Recovered(enc: string) | Lost

  // ----- the recovery file ----------------------------------------------------------------

  const KEY_LENGTH := 32

  /** A line holds a key when it decodes to enough bytes; the rest of them is dropped. */
  function KeyOf(line: string): Option<Key> {
    var t := Trim(line);
    if t == "" then None
    else match Base64.Decode(t)
         case None => None
         case Some(bytes) => if |bytes| < KEY_LENGTH then None else Some(bytes[..KEY_LENGTH])
  }

  function KeysOf(lines: seq<string>): seq<Key> {
    if lines == [] then []
    else (match KeyOf(lines[0]) case Some(k) => [k] case None => []) + KeysOf(lines[1..])
  }

  /** One key a line. */
  function Printed(keys: seq<Key>): seq<string> {
    if keys == [] then [] else [Base64.Encode(keys[0])] + Printed(keys[1..])
  }

  // ----- one row --------------------------------------------------------------------------

  /** `LIKE 'ENC:%'` ignores the case of ASCII letters. */
  predicate Selected(s: string) {
    |s| >= 4 && s[0] in "Ee" && s[1] in "Nn" && s[2] in "Cc" && s[3] == ':'
  }

  /** The JSON a key reads from a stored value. */
  function Reads(c: Suite, enc: string, key: Key): Option<string> {
    match Decrypt(c, enc, key)
    case Ok(plain) => if c.IsJson(plain) then Some(plain) else None
    case Err(_) => None
  }

  function FirstRead(c: Suite, enc: string, keys: seq<Key>): Option<string> {
    if keys == [] then None
    else if Reads(c, enc, keys[0]).Some? then Reads(c, enc, keys[0])
    else FirstRead(c, enc, keys[1..])
  }

  /** A row that cannot be sealed again counts as lost. */
  function FateOf(c: Suite, enc: string, stable: Key, keys: seq<Key>, nonce: Nonce): Fate {
    if Reads(c, enc, stable).Some? then AlreadyOk
    else match FirstRead(c, enc, keys)
         case None => Lost
         case Some(plain) => match Encrypt(c, plain, stable, nonce)
                             case None => Lost
                             case Some(again) => Recovered(again)
  }

  function Rewritten(c: Suite, enc: string, stable: Key, keys: seq<Key>, d: Draw): string {
    match FateOf(c, enc, stable, keys, d.nonce)
    case Recovered(again) => if d.written then again else enc
    case _ => enc
  }

  // ----- the sweep ------------------------------------------------------------------------

  function Fates(c: Suite, rows: seq<Row>, stable: Key, keys: seq<Key>, draws: seq<Draw>): (f: seq<Fate>)
    requires |draws| == |rows|
    ensures |f| == |rows|
  {
    seq(|rows|, i requires 0 <= i < |rows| => FateOf(c, rows[i].enc, stable, keys, draws[i].nonce))
  }

  function CountRecovered(f: seq<Fate>): nat {
    if f == [] then 0 else CountRecovered(f[..|f| - 1]) + if f[|f| - 1].Recovered? then 1 else 0
  }

  function CountOk(f: seq<Fate>): nat {
    if f == [] then 0 else CountOk(f[..|f| - 1]) + if f[|f| - 1].AlreadyOk? then 1 else 0
  }

  predicate Listed(rows: seq<Row>, id: ServiceId) { exists i | 0 <= i < |rows| :: rows[i].id == id }

  /** The rows the query returns: every selected row once, in some order. */
  predicate Snapshot(rows: seq<Row>, t: Table) {
    && (forall i, j | 0 <= i < j < |rows| :: rows[i].id != rows[j].id)
    && (forall i | 0 <= i < |rows| :: rows[i].id in t && t[rows[i].id] == Some(rows[i].enc) && Selected(rows[i].enc))
    && (forall id | id in t && t[id].Some? && Selected(t[id].value) :: Listed(rows, id))
  }

  /** The table a sweep leaves: each listed row rewritten, every other row as it was. */
  predicate Swept(c: Suite, before: Table, after: Table, rows: seq<Row>, stable: Key, keys: seq<Key>, draws: seq<Draw>)
    requires |draws| == |rows|
  {
    && after.Keys == before.Keys
    && (forall i | 0 <= i < |rows| && rows[i].id in after ::
          after[rows[i].id] == Some(Rewritten(c, rows[i].enc, stable, keys, draws[i])))
    && (forall id | id in before && !Listed(rows, id) :: after[id] == before[id])
  }

  /** Whether the recovery file can be read, the rows queried, and the file removed. */
  datatype FileIo = FileIo(readable: bool, queried: bool, removed: bool)

  class Services {
    var envJson: Table
    var keyFile: Option<string>

    constructor (t: Table, file: Option<string>)
      ensures envJson == t && keyFile == file
    {
      envJson, keyFile := t, file;
    }

    /** The keys are tried in the order of the file, after the stable one. */
    method FindPlain(c: Suite, enc: string, keys: seq<Key>) returns (plain: Option<string>)
      ensures plain == FirstRead(c, enc, keys)
    {
      hide Reads;
      plain := None;
      var i := 0;
      assert keys[0..] == keys;
      while i < |keys| && plain.None?
        invariant 0 <= i <= |keys|
        invariant FirstRead(c, enc, keys) == if plain.Some? then plain else FirstRead(c, enc, keys[i..])
      {
        assert keys[i..][1..] == keys[i + 1..];
        plain := Reads(c, enc, keys[i]);
        i := i + 1;
      }
    }

    /** One listed row: left alone, sealed again under the stable key, or given up. */
    method Restore(c: Suite, row: Row, stable: Key, keys: seq<Key>, d: Draw) returns (fate: Fate)
      requires row.id in envJson && envJson[row.id] == Some(row.enc)
      modifies this`envJson
      ensures fate == FateOf(c, row.enc, stable, keys, d.nonce)
      ensures envJson == old(envJson)[row.id := Some(Rewritten(c, row.enc, stable, keys, d))]
    {
      hide Reads, FirstRead;
      if Reads(c, row.enc, stable).Some? {
        return AlreadyOk;
      }
      var plain := FindPlain(c, row.enc, keys);
      if plain.None? {
        return Lost;
      }
      var again := Encrypt(c, plain.value, stable, d.nonce);
      if again.None? {
        return Lost;
      }
      if d.written {
        envJson := envJson[row.id := Some(again.value)];
      }
      return Recovered(again.value);
    }

    /** The whole run: the file goes after one sweep, whatever became of its rows. */
    method RunRecovery(c: Suite, stable: Key, io: FileIo, rows: seq<Row>, draws: seq<Draw>)
      requires Snapshot(rows, envJson) && |draws| == |rows|
      modifies this
      ensures keyFile == if old(keyFile).Some? && io.readable && io.removed
                            && (KeysOf(Lines(old(keyFile).value)) == [] || io.queried) then None else old(keyFile)
      ensures if old(keyFile).Some? && io.readable && KeysOf(Lines(old(keyFile).value)) != [] && io.queried
              then Swept(c, old(envJson), envJson, rows, stable, KeysOf(Lines(old(keyFile).value)), draws)
              else envJson == old(envJson)
    {
      hide Swept, Snapshot, KeysOf, Text.Lines;
      if keyFile.None? || !io.readable {
        return;
      }
      var keys := KeysOf(Lines(keyFile.value));
      if keys == [] {
        if io.removed { keyFile := None; }
        return;
      }
      if !io.queried {
        return;
      }
      if rows == [] {
        EmptySweep(c, envJson, stable, keys, draws);
      } else {
        var recovered, alreadyOk, lost := Sweep(c, rows, stable, keys, draws);
      }
      if io.removed { keyFile := None; }
    }

    method Sweep(c: Suite, rows: seq<Row>, stable: Key, keys: seq<Key>, draws: seq<Draw>)
      returns (recovered: nat, alreadyOk: nat, lost: nat)
      requires Snapshot(rows, envJson) && |draws| == |rows|
      modifies this`envJson
      ensures Swept(c, old(envJson), envJson, rows, stable, keys, draws)
      ensures recovered == CountRecovered(Fates(c, rows, stable, keys, draws))
      ensures alreadyOk == CountOk(Fates(c, rows, stable, keys, draws))
      ensures recovered + alreadyOk + lost == |rows|
    {
      hide FateOf, Rewritten, Selected, CountRecovered, CountOk, Swept;
      recovered, alreadyOk, lost := 0, 0, 0;
      ghost var fates := Fates(c, rows, stable, keys, draws);
      CountsOfNone();
      SweptNothing(c, envJson, stable, keys);
      var i := 0;
      while i < |rows|
        invariant 0 <= i <= |rows| && recovered + alreadyOk + lost == i
        invariant recovered == CountRecovered(fates[..i]) && alreadyOk == CountOk(fates[..i])
        invariant Swept(c, old(envJson), envJson, rows[..i], stable, keys, draws[..i])
      {
        SweptSoFar(c, old(envJson), envJson, rows, stable, keys, draws, i);
        CountOneMore(fates, i);
        var fate := Restore(c, rows[i], stable, keys, draws[i]);
        match fate {
          case AlreadyOk => alreadyOk := alreadyOk + 1;
          case Recovered(_) => recovered := recovered + 1;
          case Lost => lost := lost + 1;
        }
        i := i + 1;
      }
      assert fates[..i] == fates && rows[..i] == rows && draws[..i] == draws;
    }
  }

  lemma EmptySweep(c: Suite, t: Table, stable: Key, keys: seq<Key>, draws: seq<Draw>)
    requires draws == []
    ensures Swept(c, t, t, [], stable, keys, draws)
  {
  }

  lemma CountsOfNone()
    ensures CountRecovered([]) == 0 && CountOk([]) == 0
  {
  }

  lemma SweptNothing(c: Suite, t: Table, stable: Key, keys: seq<Key>)
    ensures Swept(c, t, t, [], stable, keys, [])
  {
  }

  /** Row i is still as the query saw it, and rewriting it extends the swept part. */
  lemma SweptSoFar(c: Suite, before: Table, now: Table, rows: seq<Row>, stable: Key, keys: seq<Key>, draws: seq<Draw>,
      i: nat)
    requires Snapshot(rows, before) && |draws| == |rows| && i < |rows|
    requires Swept(c, before, now, rows[..i], stable, keys, draws[..i])
    ensures rows[i].id in now && now[rows[i].id] == Some(rows[i].enc)
    ensures Swept(c, before, now[rows[i].id := Some(Rewritten(c, rows[i].enc, stable, keys, draws[i]))],
                  rows[..i + 1], stable, keys, draws[..i + 1])
  {
    hide Rewritten, Selected;
    var after := now[rows[i].id := Some(Rewritten(c, rows[i].enc, stable, keys, draws[i]))];
    forall k | 0 <= k < i + 1
      ensures after[rows[k].id] == Some(Rewritten(c, rows[k].enc, stable, keys, draws[k]))
    {
      if k < i {
        assert rows[..i][k] == rows[k] && draws[..i][k] == draws[k] && rows[k].id != rows[i].id;
      }
    }
    forall id | id in before && !Listed(rows[..i + 1], id) ensures after[id] == before[id] {
      assert rows[..i + 1][i].id != id;
      assert forall k | 0 <= k < i :: rows[..i][k] == rows[..i + 1][k];
      assert !Listed(rows[..i], id);
    }
  }

  lemma CountOneMore(f: seq<Fate>, i: nat)
    requires i < |f|
    ensures CountRecovered(f[..i + 1]) == CountRecovered(f[..i]) + if f[i].Recovered? then 1 else 0
    ensures CountOk(f[..i + 1]) == CountOk(f[..i]) + if f[i].AlreadyOk? then 1 else 0
  {
    assert f[..i + 1][..i] == f[..i];
  }

  // ----- one row, in the terms of its keys ------------------------------------------------

  /** The first key that decrypts the row to JSON decides, and nothing is read exactly when none does. */
  lemma {:induction false} FirstReadIs(c: Suite, enc: string, keys: seq<Key>, k: nat)
    requires k <= |keys| && forall i | 0 <= i < k :: !ReadsJson(c, enc, keys[i])
    ensures k == |keys| ==> FirstRead(c, enc, keys) == None
    ensures k < |keys| && ReadsJson(c, enc, keys[k]) ==>
              FirstRead(c, enc, keys) == Some(Decrypt(c, enc, keys[k]).value)
  {
    hide Decrypt;
    if k > 0 {
      assert !ReadsJson(c, enc, keys[0]);
      assert forall i | 0 <= i < k - 1 :: keys[1..][i] == keys[i + 1];
      FirstReadIs(c, enc, keys[1..], k - 1);
    }
  }

  predicate ReadsJson(c: Suite, enc: string, key: Key) {
    Decrypt(c, enc, key).Ok? && c.IsJson(Decrypt(c, enc, key).value)
  }

  /** A row is left alone, recovered or lost by which keys read it and whether sealing works. */
  lemma FateIff(c: Suite, enc: string, stable: Key, keys: seq<Key>, nonce: Nonce, again: string)
    ensures var fate, found := FateOf(c, enc, stable, keys, nonce), FirstRead(c, enc, keys);
            && (fate == AlreadyOk <==> ReadsJson(c, enc, stable))
            && (fate == Recovered(again) <==>
                  !ReadsJson(c, enc, stable) && found.Some? && Encrypt(c, found.value, stable, nonce) == Some(again))
            && (fate == Lost <==>
                  !ReadsJson(c, enc, stable)
                  && (found.None? || Encrypt(c, found.value, stable, nonce).None?))
  {
    hide Decrypt, Encrypt, FirstRead;
  }

  function RecoveredAt(f: seq<Fate>): set<nat> { set i: nat | i < |f| && f[i].Recovered? }

  function OkAt(f: seq<Fate>): set<nat> { set i: nat | i < |f| && f[i].AlreadyOk? }

  /** The counters count rows. */
  lemma {:induction false} CountsAreSizes(f: seq<Fate>)
    ensures CountRecovered(f) == |RecoveredAt(f)| && CountOk(f) == |OkAt(f)|
  {
    hide RecoveredAt, OkAt;
    if f == [] {
      NothingCounted();
    } else {
      var n := |f| - 1;
      CountsAreSizes(f[..n]);
      assert f == f[..n] + [f[n]];
      OneMore(f[..n], f[n]);
    }
  }

  lemma NothingCounted()
    ensures RecoveredAt([]) == {} && OkAt([]) == {}
  {
  }

  lemma OneMore(f: seq<Fate>, last: Fate)
    ensures |RecoveredAt(f + [last])| == |RecoveredAt(f)| + if last.Recovered? then 1 else 0
    ensures |OkAt(f + [last])| == |OkAt(f)| + if last.AlreadyOk? then 1 else 0
  {
    var g := f + [last];
    assert RecoveredAt(g) == if last.Recovered? then RecoveredAt(f) + {|f|} else RecoveredAt(f);
    assert OkAt(g) == if last.AlreadyOk? then OkAt(f) + {|f|} else OkAt(f);
  }

  // ----- what a sweep does to the meaning of a row ----------------------------------------

  /** Only a key of the file reads the row. */
  predicate NeedsOldKey(c: Suite, enc: string, stable: Key, keys: seq<Key>) {
    Reads(c, enc, stable).None? && FirstRead(c, enc, keys).Some?
  }

  /** Such a row was sealed again and written. */
  predicate Restored(c: Suite, enc: string, stable: Key, keys: seq<Key>, d: Draw) {
    NeedsOldKey(c, enc, stable, keys) ==>
      Encrypt(c, FirstRead(c, enc, keys).value, stable, d.nonce).Some? && d.written
  }

  lemma FirstOfAll(c: Suite, enc: string, stable: Key, keys: seq<Key>)
    ensures FirstRead(c, enc, [stable] + keys)
         == if Reads(c, enc, stable).Some? then Reads(c, enc, stable) else FirstRead(c, enc, keys)
  {
    hide Reads;
    assert ([stable] + keys)[1..] == keys;
  }

  lemma {:induction false} FirstReadIsJson(c: Suite, enc: string, keys: seq<Key>)
    requires FirstRead(c, enc, keys).Some?
    ensures c.IsJson(FirstRead(c, enc, keys).value)
  {
    if Reads(c, enc, keys[0]).None? {
      FirstReadIsJson(c, enc, keys[1..]);
    }
  }

  /** A JSON text sealed under a key is what that key reads. */
  lemma ReadsSealed(c: Suite, plain: string, key: Key, nonce: Nonce)
    requires Lawful(c) && |nonce| == NONCE_LENGTH && c.IsJson(plain) && Encrypt(c, plain, key, nonce).Some?
    ensures Reads(c, Encrypt(c, plain, key, nonce).value, key) == Some(plain)
  {
    hide Encrypt, Decrypt, Lawful;
    DecryptUndoesEncrypt(c, plain, key, nonce);
  }

  /**
   * After the sweep the stable key reads from a row what the first of the stable key and the file's
   * keys read from it before, exactly when the row did not need an old key or was sealed and written.
   */
  lemma RowKeepsMeaningIff(c: Suite, enc: string, stable: Key, keys: seq<Key>, d: Draw)
    requires Lawful(c) && |d.nonce| == NONCE_LENGTH
    ensures Reads(c, Rewritten(c, enc, stable, keys, d), stable) == FirstRead(c, enc, [stable] + keys)
            <==> Restored(c, enc, stable, keys, d)
    ensures !NeedsOldKey(c, enc, stable, keys) ==> Rewritten(c, enc, stable, keys, d) == enc
  {
    hide Reads, FirstRead, Encrypt, Lawful;
    FirstOfAll(c, enc, stable, keys);
    if NeedsOldKey(c, enc, stable, keys) && Encrypt(c, FirstRead(c, enc, keys).value, stable, d.nonce).Some? {
      FirstReadIsJson(c, enc, keys);
      ReadsSealed(c, FirstRead(c, enc, keys).value, stable, d.nonce);
    }
  }

  /** A restored row is left alone by any later sweep with the same keys. */
  lemma RestoredRowStays(c: Suite, enc: string, stable: Key, keys: seq<Key>, d: Draw, later: Draw)
    requires Lawful(c) && |d.nonce| == NONCE_LENGTH && Restored(c, enc, stable, keys, d)
    ensures !FateOf(c, Rewritten(c, enc, stable, keys, d), stable, keys, later.nonce).Recovered?
  {
    hide Reads, FirstRead, Encrypt, Lawful;
    RowKeepsMeaningIff(c, enc, stable, keys, d);
    FirstOfAll(c, enc, stable, keys);
  }

  /** A selected row without the exact prefix is read the same by every key, so it is never rewritten. */
  lemma {:induction false} UnprefixedIsUntouched(c: Suite, enc: string, stable: Key, keys: seq<Key>, d: Draw)
    requires !StartsWith(enc, PREFIX)
    ensures Rewritten(c, enc, stable, keys, d) == enc
    decreases |keys|
  {
    if keys != [] && Reads(c, enc, stable).None? {
      UnprefixedIsUntouched(c, enc, stable, keys[1..], d);
    }
  }

  // ----- over the whole table -------------------------------------------------------------

  /** Every row the query listed was restored. */
  predicate AllRestored(c: Suite, rows: seq<Row>, stable: Key, keys: seq<Key>, draws: seq<Draw>)
    requires |draws| == |rows|
  {
    forall i | 0 <= i < |rows| :: Restored(c, rows[i].enc, stable, keys, draws[i])
  }

  predicate NoncesFit(draws: seq<Draw>) { forall i | 0 <= i < |draws| :: |draws[i].nonce| == NONCE_LENGTH }

  /**
   * Over any table and key list: a selected row reads under the stable key as the first of all the
   * keys read it before, a row no key reads keeps its bytes, and the other rows are not touched.
   */
  lemma SweepKeepsMeaning(c: Suite, before: Table, after: Table, rows: seq<Row>, stable: Key, keys: seq<Key>,
                          draws: seq<Draw>, id: ServiceId)
    requires Lawful(c) && |draws| == |rows| && NoncesFit(draws) && AllRestored(c, rows, stable, keys, draws)
    requires Snapshot(rows, before) && Swept(c, before, after, rows, stable, keys, draws) && id in before
    ensures id in after && (before[id].None? ==> after[id].None?)
    ensures before[id].Some? && Selected(before[id].value) ==>
              after[id].Some? && Reads(c, after[id].value, stable) == FirstRead(c, before[id].value, [stable] + keys)
    ensures before[id].Some? && !NeedsOldKey(c, before[id].value, stable, keys) ==> after[id] == before[id]
    ensures before[id].Some? && !Selected(before[id].value) ==> after[id] == before[id]
  {
    hide Reads, FirstRead, Rewritten, Restored, NeedsOldKey, Selected, Lawful;
    if Listed(rows, id) {
      var i :| 0 <= i < |rows| && rows[i].id == id;
      RowKeepsMeaningIff(c, rows[i].enc, stable, keys, draws[i]);
    }
  }

  /** Whatever some key read before is still read by the stable key. */
  predicate StaysReadable(c: Suite, before: string, after: Option<string>, stable: Key, keys: seq<Key>) {
    FirstRead(c, before, [stable] + keys).Some? ==>
      after.Some? && Reads(c, after.value, stable) == FirstRead(c, before, [stable] + keys)
  }

  /**
   * The file with the old keys is removed after the sweep. No row is lost by that exactly when every
   * row that needed one of them was sealed again and written.
   */
  lemma RemovalIsSafeIff(c: Suite, before: Table, after: Table, rows: seq<Row>, stable: Key, keys: seq<Key>,
      draws: seq<Draw>)
    requires Lawful(c) && |draws| == |rows| && NoncesFit(draws)
    requires Snapshot(rows, before) && Swept(c, before, after, rows, stable, keys, draws)
    ensures forall i | 0 <= i < |rows| :: rows[i].id in after
    ensures (forall i | 0 <= i < |rows| :: StaysReadable(c, rows[i].enc, after[rows[i].id], stable, keys))
            <==> AllRestored(c, rows, stable, keys, draws)
  {
    hide Reads, FirstRead, Rewritten, Restored, Selected, Lawful, StaysReadable;
    forall i | 0 <= i < |rows|
      ensures StaysReadable(c, rows[i].enc, after[rows[i].id], stable, keys) <==>
          Restored(c, rows[i].enc, stable, keys, draws[i])
    {
      RowStaysReadableIff(c, rows[i].enc, stable, keys, draws[i]);
    }
  }

  lemma RowStaysReadableIff(c: Suite, enc: string, stable: Key, keys: seq<Key>, d: Draw)
    requires Lawful(c) && |d.nonce| == NONCE_LENGTH
    ensures StaysReadable(c, enc, Some(Rewritten(c, enc, stable, keys, d)), stable, keys) <==>
        Restored(c, enc, stable, keys, d)
  {
    hide Reads, FirstRead, Rewritten, Lawful, Encrypt;
    RowKeepsMeaningIff(c, enc, stable, keys, d);
    FirstOfAll(c, enc, stable, keys);
  }

  /** A second sweep, whatever the order of its rows and its luck, recovers nothing and changes nothing. */
  lemma SecondSweepIsIdle(c: Suite, before: Table, after: Table, rows: seq<Row>, stable: Key, keys: seq<Key>,
                          draws: seq<Draw>, again: Table, rows': seq<Row>, draws': seq<Draw>)
    requires Lawful(c) && |draws| == |rows| && NoncesFit(draws) && AllRestored(c, rows, stable, keys, draws)
    requires Snapshot(rows, before) && Swept(c, before, after, rows, stable, keys, draws)
    requires |draws'| == |rows'| && Snapshot(rows', after) && Swept(c, after, again, rows', stable, keys, draws')
    ensures again == after
    ensures CountRecovered(Fates(c, rows', stable, keys, draws')) == 0
  {
    hide Reads, FirstRead, Restored, FateOf, Selected, Lawful, CountRecovered;
    var fates := Fates(c, rows', stable, keys, draws');
    forall k | 0 <= k < |rows'|
      ensures !fates[k].Recovered? && again[rows'[k].id] == after[rows'[k].id]
    {
      var id := rows'[k].id;
      assert Listed(rows, id);
      var i :| 0 <= i < |rows| && rows[i].id == id;
      RestoredRowStays(c, rows[i].enc, stable, keys, draws[i], draws'[k]);
    }
    forall id | id in after ensures again[id] == after[id] {
      if Listed(rows', id) {
        var k :| 0 <= k < |rows'| && rows'[k].id == id;
      }
    }
    NoneRecovered(fates);
  }

  lemma {:induction false} NoneRecovered(f: seq<Fate>)
    requires forall i | 0 <= i < |f| :: !f[i].Recovered?
    ensures CountRecovered(f) == 0
  {
    if f != [] {
      NoneRecovered(f[..|f| - 1]);
    }
  }

  // ----- the recovery file ----------------------------------------------------------------

  lemma AlphabetIsPlain(c: char)
    requires Base64.InAlphabet(c)
    ensures !IsSpace(c)
  {
  }

  lemma KeyLineIsPlain(key: Key)
    requires key != []
    ensures var t := Base64.Encode(key); t != "" && Trim(t) == t && '\n' !in t && StripCr(t) == t
  {
    hide Base64.Encode, Base64.InAlphabet, Trim, IsSpace;
    var t := Base64.Encode(key);
    Base64.EncodedIsNotEmpty(key);
    Base64.EncodeStaysInAlphabet(key);
    forall c | c in t ensures !IsSpace(c) {
      AlphabetIsPlain(c);
    }
    assert !IsSpace(t[0]) && !IsSpace(t[|t| - 1]);
    TrimSame(t);
    assert IsSpace('\n') && IsSpace('\r') by { NewlinesAreSpaces(); }
  }

  lemma NewlinesAreSpaces()
    ensures IsSpace('\n') && IsSpace('\r')
  {
  }

  /** A line with the base64 of at least 32 bytes holds the first 32 of them; a shorter key is none. */
  lemma KeyLineReads(key: Key)
    requires key != []
    ensures KeyOf(Base64.Encode(key)) == if |key| >= 32 then Some(key[..32]) else None
  {
    hide Base64.Encode, Base64.Decode, Trim;
    KeyLineIsPlain(key);
    Base64.RoundTrip(key);
  }

  /** A file of full-length keys, one a line, is read back as those keys in that order. */
  lemma KeyFileIsReadBack(keys: seq<Key>)
    requires forall i | 0 <= i < |keys| :: |keys[i]| == KEY_LENGTH
    ensures KeysOf(Lines(Unlines(Printed(keys)))) == keys
  {
    hide Base64.Encode, Trim, Lines, Unlines, KeyOf, StripCr, Printed;
    var ls := Printed(keys);
    PrintedLines(keys);
    LinesOfUnlines(ls);
    assert StripAll(ls) == ls;
  }

  lemma {:induction false} PrintedLines(keys: seq<Key>)
    requires forall i | 0 <= i < |keys| :: |keys[i]| == KEY_LENGTH
    ensures KeysOf(Printed(keys)) == keys
    ensures forall i | 0 <= i < |Printed(keys)| ::
              '\n' !in Printed(keys)[i] && StripCr(Printed(keys)[i]) == Printed(keys)[i]
  {
    hide Base64.Encode, Base64.Decode, Trim, StripCr;
    if keys != [] {
      KeyLineIsPlain(keys[0]);
      Base64.RoundTrip(keys[0]);
      assert keys[0][..KEY_LENGTH] == keys[0];
      PrintedLines(keys[1..]);
      assert Printed(keys)[0] == Base64.Encode(keys[0]) && Printed(keys)[1..] == Printed(keys[1..]);
    }
  }
}
