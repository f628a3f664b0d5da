/**
 Which camera a source may use: matching an approval against the devices present,
 the durable approval record with its session token and duplicate latch, and the
 controller that binds a device.
 */
module UvcIdentity {
  import opened Basics

  /** Device facts; `rest` is everything that does not identify: path, port, aliases, instance. */
  datatype Evidence = Evidence(vendor: string, product: string, serial: Option<string>, interface: string, rest: nat)

  datatype Key = StrongKey(vendor: string, product: string, serial: string, interface: string)
  datatype Model = Model(vendor: string, product: string, interface: string)

  function Strong(e: Evidence): Option<Key> {
    if e.serial.None? || e.serial.value == "" then None
    else Some(StrongKey(e.vendor, e.product, e.serial.value, e.interface))
  }

  function ModelOf(e: Evidence): Model {
    Model(e.vendor, e.product, e.interface)
  }

  datatype Decision = Absent | Matched(device: Evidence) | Duplicate | NotUnique

  function WithKey(devices: seq<Evidence>, key: Key): seq<Evidence> {
    if devices == [] then []
    else (if Strong(devices[0]) == Some(key) then [devices[0]] else []) + WithKey(devices[1..], key)
  }

  predicate HasModel(devices: seq<Evidence>, model: Model) {
    exists i :: 0 <= i < |devices| && ModelOf(devices[i]) == model
  }

  /** A unique serial match, or an explicit refusal to choose. */
  function MatchReconnect(approved: Evidence, devices: seq<Evidence>, ambiguous: bool): Decision {
    var key := Strong(approved);
    if key.None? then
      if HasModel(devices, ModelOf(approved)) then NotUnique else Absent
    else
      var matches := WithKey(devices, key.value);
      if matches == [] then Absent
      else if ambiguous then NotUnique
      else if |matches| == 1 then Matched(matches[0])
      else Duplicate
  }

  /** The one device here with this key. */
  ghost predicate OnlyOne(devices: seq<Evidence>, key: Key, d: Evidence) {
    exists i :: OnlyAt(devices, key, d, i)
  }

  ghost predicate OnlyAt(devices: seq<Evidence>, key: Key, d: Evidence, i: int) {
    && 0 <= i < |devices| && devices[i] == d && Strong(d) == Some(key)
    && forall j :: 0 <= j < |devices| && j != i ==> Strong(devices[j]) != Some(key)
  }

  ghost predicate Nobody(devices: seq<Evidence>, key: Key) {
    forall j :: 0 <= j < |devices| ==> Strong(devices[j]) != Some(key)
  }

  lemma OnlyOneUnfolds(devices: seq<Evidence>, key: Key, d: Evidence)
    requires devices != []
    ensures OnlyOne(devices, key, d) <==>
            if Strong(devices[0]) == Some(key) then d == devices[0] && Nobody(devices[1..], key) else OnlyOne(devices[1..], key, d)
  {
    var rest := devices[1..];
    if i :| OnlyAt(devices, key, d, i) {
      assert forall j :: 0 <= j < |rest| ==> rest[j] == devices[j + 1];
      assert i > 0 ==> OnlyAt(rest, key, d, i - 1);
    }
    if i :| OnlyAt(rest, key, d, i) {
      assert Strong(devices[0]) != Some(key) ==> OnlyAt(devices, key, d, i + 1);
    }
    assert Strong(devices[0]) == Some(key) && d == devices[0] && Nobody(rest, key) ==> OnlyAt(devices, key, d, 0);
  }

  lemma {:induction false} WithKeyByPosition(devices: seq<Evidence>, key: Key, d: Evidence)
    ensures WithKey(devices, key) == [] <==> Nobody(devices, key)
    ensures WithKey(devices, key) == [d] <==> OnlyOne(devices, key, d)
    decreases |devices|
  {
    if devices != [] {
      var rest := devices[1..];
      WithKeyByPosition(rest, key, d);
      OnlyOneUnfolds(devices, key, d);
      assert Nobody(devices, key) <==> Strong(devices[0]) != Some(key) && Nobody(rest, key) by {
        assert forall j :: 0 <= j < |rest| ==> rest[j] == devices[j + 1];
        assert forall j :: 0 < j < |devices| ==> devices[j] == rest[j - 1];
      }
      var more := WithKey(rest, key);
      assert [devices[0]] + more == [d] <==> devices[0] == d && more == [] by {
        assert |[devices[0]] + more| == 1 + |more| && ([devices[0]] + more)[0] == devices[0];
      }
    }
  }

  /** A device of the approved model: same vendor, product and interface. */
  ghost predicate Alike(a: Evidence, b: Evidence) {
    a.vendor == b.vendor && a.product == b.product && a.interface == b.interface
  }

  /** Two devices share a key. */
  ghost predicate Twice(devices: seq<Evidence>, key: Key) {
    exists i, j :: 0 <= i < j < |devices| && Strong(devices[i]) == Some(key) && Strong(devices[j]) == Some(key)
  }

  lemma TwiceIsMany(devices: seq<Evidence>, key: Key)
    ensures Twice(devices, key) <==> |WithKey(devices, key)| > 1
  {
    var matches := WithKey(devices, key);
    if |matches| == 1 {
      WithKeyByPosition(devices, key, matches[0]);
      assert matches == [matches[0]];
    } else {
      if i :| 0 <= i < |devices| && Strong(devices[i]) == Some(key) {
        WithKeyByPosition(devices, key, devices[i]);
        if forall j :: 0 <= j < |devices| && j != i ==> Strong(devices[j]) != Some(key) {
          assert OnlyAt(devices, key, devices[i], i);
        }
      } else {
        assert Nobody(devices, key);
        WithKeyByPosition(devices, key, Evidence("", "", None, "", 0));
      }
    }
  }

  /** Why no device is matched: none of the model or serial is there, two share the serial, or nothing may be chosen. */
  lemma RefusalMeans(approved: Evidence, devices: seq<Evidence>, ambiguous: bool)
    ensures var decision, key := MatchReconnect(approved, devices, ambiguous), Strong(approved);
            && (decision == Absent <==>
                  forall i :: 0 <= i < |devices| ==> if key.Some? then Strong(devices[i]) != key else !Alike(devices[i], approved))
            && (decision == Duplicate <==> key.Some? && !ambiguous && Twice(devices, key.value))
  {
    hide Strong, WithKey, Twice;
    var key := Strong(approved);
    if key.Some? {
      TwiceIsMany(devices, key.value);
      WithKeyByPosition(devices, key.value, approved);
    }
  }

  /** A device is matched exactly when it is the only one with an approved key that is not latched. */
  lemma MatchIsUnique(approved: Evidence, devices: seq<Evidence>, ambiguous: bool, d: Evidence)
    ensures MatchReconnect(approved, devices, ambiguous) == Matched(d) <==>
            !ambiguous && Strong(approved).Some? && OnlyOne(devices, Strong(approved).value, d)
  {
    hide WithKey, Strong, OnlyOne;
    if Strong(approved).Some? {
      var matches := WithKey(devices, Strong(approved).value);
      WithKeyByPosition(devices, Strong(approved).value, d);
      assert |matches| == 1 ==> matches == [matches[0]];
    }
  }
}
