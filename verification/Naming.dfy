/** Allocation of the names multinic0 .. multinic9 over the device table. */
module Naming {
  import opened Options
  import opened Text
  import opened Entities
  import opened IpLink

  /** A valid interface name is `multinic` and one digit; the digit stands for the name. */
  type Slot = k: nat | k < 10

  function Name(k: Slot): string {
    "multinic" + [DigitChar(k)]
  }

  predicate IsValidName(s: string) {
    |s| == 9 && HasPrefix(s, "multinic") && IsDigit(s[8])
  }

  lemma {:induction false} NamesAreSlots(s: string)
    ensures IsValidName(s) <==> exists k: Slot :: s == Name(k)
  {
    if IsValidName(s) {
      assert s == Name(DigitValue(s[8]));
    }
  }

  lemma NameInjective(j: Slot, k: Slot)
    ensures Name(j) == Name(k) ==> j == k
    ensures Name(j) != "" && Plain(Name(j))
  {
    assert Name(j)[8] == DigitChar(j) && Name(k)[8] == DigitChar(k);
  }

  predicate InUse(devices: seq<Device>, name: string) {
    exists i :: 0 <= i < |devices| && devices[i].name == name
  }

  /** The device of that name, as `ip addr show` finds it. */
  function MacOf(devices: seq<Device>, name: string): (r: Option<string>)
    ensures r.Some? <==> InUse(devices, name)
    ensures r.Some? ==> exists i :: 0 <= i < |devices| && devices[i] == Device(name, r.value)
  {
    if devices == [] then None
    else if devices[0].name == name then assert devices[0] == Device(name, devices[0].mac); Some(devices[0].mac)
    else
      var r := MacOf(devices[1..], name);
      assert forall i :: 0 <= i < |devices[1..]| ==> devices[1..][i] == devices[i + 1];
      assert InUse(devices, name) ==> InUse(devices[1..], name) by {
        if InUse(devices, name) {
          var i :| 0 <= i < |devices| && devices[i].name == name;
          assert devices[1..][i - 1].name == name;
        }
      }
      r
  }

  /** The slot's device has the MAC address, and the query for it is not among the failing ones. */
  predicate Carries(devices: seq<Device>, mac: string, blind: set<Slot>, k: Slot) {
    k !in blind &&
    match MacOf(devices, Name(k)) case None => false case Some(m) => SameMac(m, mac)
  }

  function LowestCarrying(devices: seq<Device>, mac: string, blind: set<Slot>, from: nat): (r: Option<Slot>)
    requires from <= 10
    ensures match r
            case Some(k) => from <= k && Carries(devices, mac, blind, k) &&
                            (forall j: Slot :: from <= j < k ==> !Carries(devices, mac, blind, j))
            case None => forall j: Slot :: from <= j ==> !Carries(devices, mac, blind, j)
    decreases 10 - from
  {
    if from == 10 then None
    else if Carries(devices, mac, blind, from) then Some(from)
    else LowestCarrying(devices, mac, blind, from + 1)
  }

  function LowestFree(devices: seq<Device>, from: nat): (r: Option<Slot>)
    requires from <= 10
    ensures match r
            case Some(k) => from <= k && !InUse(devices, Name(k)) &&
                            (forall j: Slot :: from <= j < k ==> InUse(devices, Name(j)))
            case None => forall j: Slot :: from <= j ==> InUse(devices, Name(j))
    decreases 10 - from
  {
    if from == 10 then None
    else if !InUse(devices, Name(from)) then Some(from)
    else LowestFree(devices, from + 1)
  }

  /** The name given to a MAC address: the one it already has, else the lowest free one. */
  function NameFor(devices: seq<Device>, mac: string, blind: set<Slot>): Option<Slot> {
    var own := LowestCarrying(devices, mac, blind, 0);
    if own.Some? then own else LowestFree(devices, 0)
  }

  method GenerateNextName(devices: seq<Device>) returns (slot: Option<Slot>)
    ensures match slot
            case Some(k) => !InUse(devices, Name(k)) && (forall j: Slot :: j < k ==> InUse(devices, Name(j)))
            case None => forall j: Slot :: InUse(devices, Name(j))
  {
    var i := 0;
    while i < 10
      invariant i <= 10
      invariant forall j: Slot :: j < i ==> InUse(devices, Name(j))
    {
      if MacOf(devices, Name(i)).Some? {
        i := i + 1;
        continue;
      }
      return Some(i);
    }
    return None;
  }

  method GenerateNextNameForMAC(devices: seq<Device>, mac: string, blind: set<Slot>) returns (slot: Option<Slot>)
    ensures slot == NameFor(devices, mac, blind)
    ensures slot == None <==> forall k: Slot :: InUse(devices, Name(k)) && !Carries(devices, mac, blind, k)
    ensures slot.Some? ==> Carries(devices, mac, blind, slot.value) || !InUse(devices, Name(slot.value))
    ensures slot.Some? ==> forall k: Slot :: k < slot.value ==> !Carries(devices, mac, blind, k)
    ensures slot.Some? && !Carries(devices, mac, blind, slot.value) ==>
              (forall k: Slot :: !Carries(devices, mac, blind, k)) &&
              (forall k: Slot :: k < slot.value ==> InUse(devices, Name(k)))
  {
    var i := 0;
    while i < 10
      invariant i <= 10
      invariant forall j: Slot :: j < i ==> !Carries(devices, mac, blind, j)
    {
      var existing := MacOf(devices, Name(i));
      if existing.Some? && i !in blind && SameMac(existing.value, mac) {
        assert Carries(devices, mac, blind, i);
        return Some(i);
      }
      i := i + 1;
    }
    slot := GenerateNextName(devices);
  }

  /**
   The answer for a MAC address whose device holds a slot stays that slot in any other
   table where the device is still present, whatever names come or go, as long as no
   lower slot carries the same MAC address.
   */
  lemma {:induction false} NameIsStable(before: seq<Device>, after: seq<Device>, mac: string, blind: set<Slot>, k: Slot)
    requires NameFor(before, mac, blind) == Some(k) && Carries(before, mac, blind, k)
    requires Carries(after, mac, blind, k)
    requires forall j: Slot :: j < k ==> Carries(after, mac, blind, j) ==> Carries(before, mac, blind, j)
    ensures NameFor(after, mac, blind) == Some(k)
  {
    assert forall j: Slot :: j < k ==> !Carries(before, mac, blind, j);
  }

  /** When a free slot is handed out, any change to the slots above it leaves the answer alone. */
  lemma {:induction false} FreeNameIsStable(before: seq<Device>, after: seq<Device>, mac: string, blind: set<Slot>,
                                            k: Slot)
    requires NameFor(before, mac, blind) == Some(k) && !InUse(before, Name(k))
    requires !InUse(after, Name(k)) && forall j: Slot :: !Carries(after, mac, blind, j)
    requires forall j: Slot :: j < k ==> InUse(after, Name(j))
    ensures NameFor(after, mac, blind) == Some(k)
  {
  }

  // ---- facts about tables with distinct names -------------------------------

  predicate UniqueNames(devices: seq<Device>) {
    forall i, j :: 0 <= i < j < |devices| ==> devices[i].name != devices[j].name
  }

  /** Device `i` is the one of slot `k` and carries the MAC address. */
  predicate Holds(devices: seq<Device>, i: nat, k: Slot, mac: string) {
    i < |devices| && devices[i].name == Name(k) && SameMac(devices[i].mac, mac)
  }

  lemma MacOfIndex(devices: seq<Device>, i: nat)
    requires UniqueNames(devices) && i < |devices|
    ensures MacOf(devices, devices[i].name) == Some(devices[i].mac)
  {
    assert InUse(devices, devices[i].name);
  }

  lemma CarriesHolds(devices: seq<Device>, mac: string, blind: set<Slot>, k: Slot)
    requires UniqueNames(devices)
    ensures Carries(devices, mac, blind, k) <==> k !in blind && exists i: nat :: Holds(devices, i, k, mac)
  {
    if i: nat :| Holds(devices, i, k, mac) {
      MacOfIndex(devices, i);
    }
    if Carries(devices, mac, blind, k) {
      var m := MacOf(devices, Name(k)).value;
      var i :| 0 <= i < |devices| && devices[i] == Device(Name(k), m);
      assert Holds(devices, i, k, mac);
    }
  }
}
