/** A checkpoint of a private scope: who is admitted, who was revoked, and its place in the
    hash-linked chain. */
module PrivateAuthorizationCheckpoint {
  import opened Wrappers
  import opened Sequences

  const MAX_REVOKED_DEVICE_KEYS := 128
  const MAX_SAFE_INTEGER := 0x1F_FFFF_FFFF_FFFF

  datatype DeviceIdentity = DeviceIdentity(deviceKey: string, identityId: string)

  datatype CheckpointRecord = CheckpointRecord(
    scopeId: string,
    revision: int,
    headHash: string,
    parentHeadHash: Option<string>,
    admittedDeviceKeys: seq<string>,
    authorityKeys: seq<string>,
    revokedDeviceKeys: seq<string>,
    freshnessAuthorityKey: string,
    controlCheckpointJson: string,
    deviceIdentities: seq<DeviceIdentity>)
  {
    predicate InvalidIdentity() {
      scopeId == "" || headHash == "" || controlCheckpointJson == "" || freshnessAuthorityKey == ""
    }

    predicate InvalidRevision() {
      || revision > MAX_SAFE_INTEGER
      || revision < 0
      || (if revision == 0 then parentHeadHash.Some?
          else parentHeadHash.None? || parentHeadHash.value == "")
    }

    predicate InvalidKeys() {
      var admitted := set key | key in admittedDeviceKeys;
      || !Unique(admittedDeviceKeys)
      || !Unique(authorityKeys)
      || !Unique(revokedDeviceKeys)
      || (exists key | key in authorityKeys :: key !in admitted)
      || freshnessAuthorityKey !in admitted
      || (exists key | key in revokedDeviceKeys :: key in admitted || key == "")
      || |revokedDeviceKeys| > MAX_REVOKED_DEVICE_KEYS
    }

    predicate InvalidDeviceIdentities() {
      var mapped := MappedKeys(deviceIdentities);
      || !Unique(mapped)
      || (exists key | key in mapped :: key !in admittedDeviceKeys && key !in revokedDeviceKeys)
      || (exists key | key in admittedDeviceKeys :: key !in mapped)
      || (exists device | device in deviceIdentities :: device.deviceKey == "" || device.identityId == "")
    }

    predicate Consistent() {
      !InvalidIdentity() && !InvalidRevision() && !InvalidKeys() && !InvalidDeviceIdentities()
    }

    predicate Authorizes(deviceKey: string) {
      deviceKey in authorityKeys
    }

    predicate Admits(deviceKey: string) {
      deviceKey in admittedDeviceKeys
    }

    predicate Recognizes(deviceKey: string) {
      Admits(deviceKey) || deviceKey in revokedDeviceKeys
    }
  }

  predicate Unique(values: seq<string>) {
    forall i, j :: 0 <= i < j < |values| ==> values[i] != values[j]
  }

  function MappedKeys(devices: seq<DeviceIdentity>): (keys: seq<string>)
    ensures |keys| == |devices|
    ensures forall i :: 0 <= i < |keys| ==> keys[i] == devices[i].deviceKey
    ensures forall device :: device in devices ==> device.deviceKey in keys
  {
    var keys := seq(|devices|, i requires 0 <= i < |devices| => devices[i].deviceKey);
    assert forall i :: 0 <= i < |devices| ==> keys[i] == devices[i].deviceKey;
    keys
  }

  /** Every checkpoint in the program passed `assertInternallyConsistent`. */
  type Checkpoint = record: CheckpointRecord | record.Consistent()
    witness CheckpointRecord("scope", 0, "head", None, ["key"], ["key"], [], "key", "{}",
                             [DeviceIdentity("key", "identity")])

  function NotIn(keys: seq<string>): string -> bool {
    key => key !in keys
  }

  /** The keys the checkpoint recognizes that a successor admitting `admitted` must remember:
      those already revoked, then those it stops admitting. */
  function DroppedKeys(checkpoint: Checkpoint, admitted: seq<string>): seq<string> {
    Filter(NotIn(admitted), checkpoint.revokedDeviceKeys)
    + Filter(NotIn(admitted), checkpoint.admittedDeviceKeys)
  }

  /** The newest `MAX_REVOKED_DEVICE_KEYS` dropped keys. */
  function RevocationHistoryAfter(checkpoint: Checkpoint, admitted: seq<string>): seq<string> {
    var revoked := DroppedKeys(checkpoint, admitted);
    if |revoked| <= MAX_REVOKED_DEVICE_KEYS then revoked
    else revoked[|revoked| - MAX_REVOKED_DEVICE_KEYS..]
  }

  lemma NoEmptyKeys(checkpoint: Checkpoint)
    ensures forall key :: checkpoint.Recognizes(key) ==> key != ""
  {
    forall key | checkpoint.Admits(key) ensures key != "" {
      var i :| 0 <= i < |checkpoint.deviceIdentities| && MappedKeys(checkpoint.deviceIdentities)[i] == key;
      assert checkpoint.deviceIdentities[i] in checkpoint.deviceIdentities;
    }
  }

  lemma DroppedKeysAreDistinct(checkpoint: Checkpoint, admitted: seq<string>)
    ensures Distinct(DroppedKeys(checkpoint, admitted))
    ensures forall key :: key in DroppedKeys(checkpoint, admitted) <==> checkpoint.Recognizes(key) && key !in admitted
  {
    var olds := Filter(NotIn(admitted), checkpoint.revokedDeviceKeys);
    var news := Filter(NotIn(admitted), checkpoint.admittedDeviceKeys);
    FilterKeepsDistinct(NotIn(admitted), checkpoint.revokedDeviceKeys);
    FilterKeepsDistinct(NotIn(admitted), checkpoint.admittedDeviceKeys);
    FilterMembers(NotIn(admitted), checkpoint.revokedDeviceKeys);
    FilterMembers(NotIn(admitted), checkpoint.admittedDeviceKeys);
    forall i, j | 0 <= i < j < |olds + news| ensures (olds + news)[i] != (olds + news)[j] {
      if i < |olds| && j >= |olds| {
        assert (olds + news)[i] in olds && (olds + news)[j] in news;
      }
    }
  }

  /** A successor that admits `admitted` may carry the history as its revoked list: the list has
      no repeats, no empty key and no admitted key, and fits the limit. */
  lemma RevocationHistoryIsCarriable(checkpoint: Checkpoint, admitted: seq<string>)
    ensures var history := RevocationHistoryAfter(checkpoint, admitted);
            && Unique(history)
            && |history| <= 128
            && forall key :: key in history ==> key !in admitted && key != ""
  {
    DroppedKeysAreDistinct(checkpoint, admitted);
    NoEmptyKeys(checkpoint);
    var revoked, history := DroppedKeys(checkpoint, admitted), RevocationHistoryAfter(checkpoint, admitted);
    var skipped := |revoked| - |history|;
    assert forall i :: 0 <= i < |history| ==> history[i] == revoked[skipped + i] && history[i] in revoked;
  }

  /** Recognition is only ever forgotten oldest first: a recognized key missing from the successor
      was dropped before at least 128 others. */
  lemma RevocationForgetsOldestFirst(checkpoint: Checkpoint, admitted: seq<string>, key: string)
    requires checkpoint.Recognizes(key) && key !in admitted
    ensures var history, revoked := RevocationHistoryAfter(checkpoint, admitted), DroppedKeys(checkpoint, admitted);
            key in history || exists i :: 0 <= i < |revoked| - 128 && revoked[i] == key
  {
    DroppedKeysAreDistinct(checkpoint, admitted);
    var revoked, history := DroppedKeys(checkpoint, admitted), RevocationHistoryAfter(checkpoint, admitted);
    var skipped := |revoked| - |history|;
    var i :| 0 <= i < |revoked| && revoked[i] == key;
    if i >= skipped {
      assert history[i - skipped] == key;
      assert key in history;
    } else {
      assert 0 <= i < |revoked| - 128 && revoked[i] == key;
    }
  }

  /** So while at most that many keys stop being admitted, none of those is forgotten. */
  lemma NewlyRevokedAreRemembered(checkpoint: Checkpoint, admitted: seq<string>, key: string)
    requires checkpoint.Admits(key) && key !in admitted
    requires |Filter(NotIn(admitted), checkpoint.admittedDeviceKeys)| <= 128
    ensures key in RevocationHistoryAfter(checkpoint, admitted)
  {
    var olds := Filter(NotIn(admitted), checkpoint.revokedDeviceKeys);
    var news := Filter(NotIn(admitted), checkpoint.admittedDeviceKeys);
    FilterMembers(NotIn(admitted), checkpoint.admittedDeviceKeys);
    var k :| 0 <= k < |news| && news[k] == key;
    var history := RevocationHistoryAfter(checkpoint, admitted);
    assert history[|olds| + k - (|olds + news| - |history|)] == key;
  }

  // ---- What a checkpoint must be ----

  /** Admitted, authority and revoked keys without repeats; authorities and the freshness authority admitted; at
      most 128 revoked keys, none of them empty or admitted. */
  ghost predicate KeysFit(record: CheckpointRecord) {
    && Distinct(record.admittedDeviceKeys) && Distinct(record.authorityKeys) && Distinct(record.revokedDeviceKeys)
    && (forall key :: key in record.authorityKeys ==> key in record.admittedDeviceKeys)
    && record.freshnessAuthorityKey in record.admittedDeviceKeys
    && |record.revokedDeviceKeys| <= 128
    && forall key :: key in record.revokedDeviceKeys ==> key != "" && key !in record.admittedDeviceKeys
  }

  /** Every admitted key has exactly one identity, every other identity is of a revoked key, and none is empty. */
  ghost predicate IdentitiesFit(record: CheckpointRecord) {
    && (forall i, j :: 0 <= i < j < |record.deviceIdentities| ==>
          record.deviceIdentities[i].deviceKey != record.deviceIdentities[j].deviceKey)
    && (forall key :: key in record.admittedDeviceKeys ==>
          exists device :: device in record.deviceIdentities && device.deviceKey == key)
    && (forall device :: device in record.deviceIdentities ==>
          && (device.deviceKey in record.admittedDeviceKeys || device.deviceKey in record.revokedDeviceKeys)
          && device.deviceKey != "" && device.identityId != "")
  }

  /** The texts are there, and a parent is named exactly from revision 1 on. */
  ghost predicate PlaceFits(record: CheckpointRecord) {
    && record.scopeId != "" && record.headHash != "" && record.controlCheckpointJson != ""
    && record.freshnessAuthorityKey != ""
    && 0 <= record.revision <= 9_007_199_254_740_991
    && (record.revision == 0 ==> record.parentHeadHash == None)
    && (record.revision > 0 ==> exists parent :: parent != "" && record.parentHeadHash == Some(parent))
  }

  lemma IdentitiesFitExactly(record: CheckpointRecord)
    ensures IdentitiesFit(record) <==> !record.InvalidDeviceIdentities()
  {
    var mapped := MappedKeys(record.deviceIdentities);
    forall key
      ensures key in mapped <==> exists device :: device in record.deviceIdentities && device.deviceKey == key
    {
      if key in mapped {
        var i :| 0 <= i < |mapped| && mapped[i] == key;
        assert record.deviceIdentities[i] in record.deviceIdentities;
      }
    }
    assert Unique(mapped) <==> forall i, j :: 0 <= i < j < |record.deviceIdentities| ==>
        record.deviceIdentities[i].deviceKey != record.deviceIdentities[j].deviceKey;
  }

  /** Those are exactly the checkpoints the constructor lets through. */
  lemma ConsistentExactlyWhenItFits(record: CheckpointRecord)
    ensures record.Consistent() <==> PlaceFits(record) && KeysFit(record) && IdentitiesFit(record)
  {
    IdentitiesFitExactly(record);
  }

  /** A successor that hands on the history as its revoked list is let through whenever the rest of it fits. */
  lemma HistoryMakesASuccessor(checkpoint: Checkpoint, next: CheckpointRecord)
    requires next.revokedDeviceKeys == RevocationHistoryAfter(checkpoint, next.admittedDeviceKeys)
    requires PlaceFits(next) && IdentitiesFit(next)
    requires Distinct(next.admittedDeviceKeys) && Distinct(next.authorityKeys)
    requires forall key :: key in next.authorityKeys ==> key in next.admittedDeviceKeys
    requires next.freshnessAuthorityKey in next.admittedDeviceKeys
    ensures next.Consistent()
  {
    RevocationHistoryIsCarriable(checkpoint, next.admittedDeviceKeys);
    ConsistentExactlyWhenItFits(next);
  }
}
