/** The room files: internal/state/state.go and the secret beside it. */
module RoomState {
  import opened Bytes
  import opened Lease

  type Uid = string

  /** A member's WireGuard pre-shared key, the HMAC of the three values it is derived from. */
  datatype Psk = Psk(roomKey: nat, hostPublic: Key, client: Key)

  datatype Config = Config(roomID: string, hostUID: Uid, pairPort: nat, wireGuardPort: nat, relayPort: nat)

  const SCHEMA_VERSION: nat := 1

  /** room.json. Members are the leases; the blocked UIDs, which the file lists, are a set. */
  datatype Record = Record(schemaVersion: nat, config: Config, joinEnabled: bool, members: seq<Lease>,
                           blockedMembers: seq<Key>, blocked: set<Uid>)

  /** room.secret. */
  datatype Secret = Secret(roomKey: nat, psks: map<Key, Psk>)

  datatype Disk = Disk(secret: Option<Secret>, main: Option<Record>, backup: Option<Record>)

  predicate LowerHex(c: char) {
    '0' <= c <= '9' || 'a' <= c <= 'f'
  }

  predicate AnyHex(c: char) {
    LowerHex(c) || 'A' <= c <= 'F'
  }

  /** Eight bytes in canonical lower-case hexadecimal. */
  predicate ValidUid(uid: Uid) {
    |uid| == 16 && forall i :: 0 <= i < 16 ==> LowerHex(uid[i])
  }

  predicate ValidConfig(c: Config) {
    && |c.roomID| == 32 && (forall i :: 0 <= i < 32 ==> AnyHex(c.roomID[i]))
    && c.pairPort != 0 && c.wireGuardPort != 0 && c.relayPort != 0
    && ValidUid(c.hostUID)
  }

  predicate ValidMembers(members: seq<Lease>) {
    && (forall i :: 0 <= i < |members| ==> MemberIP(members[i].ip) && members[i].revision != 0)
    && (forall i, j :: 0 <= i < j < |members| ==>
          members[i].publicKey != members[j].publicKey && members[i].ip != members[j].ip)
  }

  /** Blocked keys are not members' and not listed twice. */
  predicate ValidBlockedMembers(keys: seq<Key>, members: seq<Lease>) {
    && (forall i, j :: 0 <= i < j < |keys| ==> keys[i] != keys[j])
    && (forall i, j :: 0 <= i < |keys| && 0 <= j < |members| ==> keys[i] != members[j].publicKey)
  }

  predicate ValidBlocked(blocked: set<Uid>, host: Uid) {
    forall uid :: uid in blocked ==> ValidUid(uid) && uid != host
  }

  predicate ValidRecord(r: Record) {
    && r.schemaVersion == SCHEMA_VERSION && ValidConfig(r.config) && ValidMembers(r.members)
    && ValidBlockedMembers(r.blockedMembers, r.members) && ValidBlocked(r.blocked, r.config.hostUID)
  }

  predicate NoRepeat(listed: seq<Uid>) {
    forall i, j :: 0 <= i < j < |listed| ==> listed[i] != listed[j]
  }

  /** validate: passes that remember what has been seen so far. `listed` are the blocked UIDs as the file has them. */
  method Validate(r: Record, listed: seq<Uid>) returns (ok: bool)
    requires r.blocked == (set uid | uid in listed)
    ensures ok == (ValidRecord(r) && NoRepeat(listed))
  {
    if r.schemaVersion != SCHEMA_VERSION || !ValidConfig(r.config) {
      return false;
    }
    var keys;
    ok, keys := ValidateMembers(r.members);
    if !ok {
      return false;
    }
    ok := ValidateBlockedMembers(r.blockedMembers, r.members, keys);
    if !ok {
      return false;
    }
    ok := ValidateBlocked(listed, r.config.hostUID);
  }

  method ValidateMembers(members: seq<Lease>) returns (ok: bool, keys: set<Key>)
    ensures ok == ValidMembers(members)
    ensures ok ==> forall k :: k in keys <==> exists j :: 0 <= j < |members| && members[j].publicKey == k
  {
    var ips: set<Addr> := {};
    keys := {};
    for i := 0 to |members|
      invariant ValidMembers(members[..i])
      invariant forall k :: k in keys <==> exists j :: 0 <= j < i && members[j].publicKey == k
      invariant forall a :: a in ips <==> exists j :: 0 <= j < i && members[j].ip == a
    {
      var member := members[i];
      if !MemberIP(member.ip) || member.revision == 0 || member.publicKey in keys || member.ip in ips {
        return false, keys;
      }
      keys, ips := keys + {member.publicKey}, ips + {member.ip};
      assert members[..i + 1] == members[..i] + [member];
    }
    assert members[..|members|] == members;
    return true, keys;
  }

  method ValidateBlockedMembers(blocked: seq<Key>, members: seq<Lease>, keys: set<Key>) returns (ok: bool)
    requires forall k :: k in keys <==> exists j :: 0 <= j < |members| && members[j].publicKey == k
    ensures ok == ValidBlockedMembers(blocked, members)
  {
    var seen := keys;
    for i := 0 to |blocked|
      invariant ValidBlockedMembers(blocked[..i], members)
      invariant forall k :: k in seen <==> k in keys || exists j :: 0 <= j < i && blocked[j] == k
    {
      if blocked[i] in seen {
        return false;
      }
      seen := seen + {blocked[i]};
      assert blocked[..i + 1] == blocked[..i] + [blocked[i]];
    }
    assert blocked[..|blocked|] == blocked;
    return true;
  }

  method ValidateBlocked(listed: seq<Uid>, host: Uid) returns (ok: bool)
    ensures ok == (ValidBlocked((set uid | uid in listed), host) && NoRepeat(listed))
  {
    var seen: set<Uid> := {};
    for i := 0 to |listed|
      invariant forall j :: 0 <= j < i ==> ValidUid(listed[j]) && listed[j] != host
      invariant NoRepeat(listed[..i])
      invariant forall uid :: uid in seen <==> exists j :: 0 <= j < i && listed[j] == uid
    {
      if !ValidUid(listed[i]) || listed[i] == host || listed[i] in seen {
        assert listed[i] in (set uid | uid in listed);
        return false;
      }
      seen := seen + {listed[i]};
      assert listed[..i + 1] == listed[..i] + [listed[i]];
    }
    assert listed[..|listed|] == listed;
    return true;
  }

  /** Which file operations succeed during one persistLocked call. */
  datatype SaveEnv = SaveEnv(secretOk: bool, backupOk: bool, mainOk: bool, undoOk: bool)

  /**
    * state.Save: refuse an invalid record, copy a valid previous file to the backup, replace the
    * main file; each file is replaced atomically or not at all.
    */
  function SaveRecord(d: Disk, r: Record, env: SaveEnv): (Disk, bool) {
    if !ValidRecord(r) then (d, false)
    else
      var previous := d.main.Some? && ValidRecord(d.main.value);
      if previous && !env.backupOk then (d, false)
      else
        var d1 := if previous then d.(backup := d.main) else d;
        if env.mainOk then (d1.(main := Some(r)), true) else (d1, false)
  }

  /** state.Load: the main file when it is valid, otherwise a valid backup. */
  function LoadRecord(d: Disk): Option<Record> {
    if d.main.Some? && ValidRecord(d.main.value) then d.main
    else if d.backup.Some? && ValidRecord(d.backup.value) then d.backup
    else None
  }

  /** persistLocked: secret first, then the record; a failed record puts the old secret back. */
  function Persist(d: Disk, secret: Secret, r: Record, env: SaveEnv): (Disk, bool) {
    if !env.secretOk then (d, false)
    else
      var (d1, ok) := SaveRecord(d.(secret := Some(secret)), r, env);
      if ok then (d1, true)
      else (if env.undoOk then d1.(secret := d.secret) else d1, false)
  }

  /**
    * A persist that succeeds is what a later load reads. One that fails, with the old secret put
    * back, leaves both files as they were, so a load still reads what it read before.
    */
  lemma PersistIsAtomic(d: Disk, secret: Secret, r: Record, env: SaveEnv)
    ensures var (after, ok) := Persist(d, secret, r, env);
            && (ok ==> after.secret == Some(secret) && after.main == Some(r) && LoadRecord(after) == Some(r))
            && (ok <==> env.secretOk && env.mainOk && ValidRecord(r)
                        && (d.main.Some? && ValidRecord(d.main.value) ==> env.backupOk))
            && (!ok && env.undoOk ==> after.secret == d.secret && after.main == d.main)
            && (!ok && env.undoOk && LoadRecord(d).Some? ==> LoadRecord(after) == LoadRecord(d))
  {
  }

  /**
    * Main result. A save over a valid file keeps that file as the backup: should the new one be lost or spoilt, a load
    * reads what was there before the save. A file that is not valid never takes the backup's place.
    */
  lemma BackupIsPrevious(d: Disk, secret: Secret, r: Record, env: SaveEnv, spoilt: Option<Record>)
    requires Persist(d, secret, r, env).1 && (spoilt.Some? ==> !ValidRecord(spoilt.value))
    ensures var after, valid := Persist(d, secret, r, env).0, d.main.Some? && ValidRecord(d.main.value);
            && after.backup == (if valid then d.main else d.backup)
            && LoadRecord(after) == Some(r) && LoadRecord(after.(main := spoilt)) == LoadRecord(d)
  {
  }
}
