/** The VLAN records kept by the manager, the validation `add_vlan` performs
    before it appends a record, and the filter `delete_vlan` applies. */
module Records {
  import opened Results
  import opened Text

  /** A field value the core only stores or tests for truth: the JSON scalars. */
  datatype Value = Null | Bool(b: bool) | Int(i: int) | Str(s: string)

  /** Python's bool(x) on such a value. */
  predicate Truthy(v: Value) {
    match v
    case Null => false
    case Bool(b) => b
    case Int(i) => i != 0
    case Str(s) => s != ""
  }

  /** bool(d.get(key)): an absent key reads as None, which is false. */
  predicate FieldTruthy(fields: map<string, Value>, key: string) {
    key in fields && Truthy(fields[key])
  }

  /** What int(vlan_data['id']) does with the caller's id: yields an integer or raises ValueError. */
  datatype RawId = Parses(n: int) | DoesNotParse

  /** The dictionary handed to add_vlan: its id, its cidr and the keys it carries. */
  datatype VlanInput = VlanInput(id: RawId, cidr: string, fields: map<string, Value>)

  /** A stored record: integer id, cidr as given, the coerced dhcp and nat flags, and every
      other key of the caller's dictionary (forwarding, dns_servers, ...) unchanged. */
  datatype Vlan = Vlan(id: int, cidr: string, dhcp: bool, natEnabled: bool, fields: map<string, Value>)

  /** The keys a stored record holds in its own components rather than among its fields. */
  const RecordKeys: set<string> := {"id", "cidr", "dhcp", "nat"}

  datatype AddError = InvalidVlanId | DuplicateVlanId(id: int) | InvalidCidr

  const MinVlanId: int := 1
  const MaxVlanId: int := 4094

  /** The text of the ValueError that add_vlan raises. */
  function Message(e: AddError): string {
    match e
    case InvalidVlanId => "Invalid VLAN ID"
    case DuplicateVlanId(n) => "VLAN ID " + DecimalString(n) + " already exists"
    case InvalidCidr => "Invalid CIDR format"
  }

  predicate HasId(vlans: seq<Vlan>, n: int) {
    exists i :: 0 <= i < |vlans| && vlans[i].id == n
  }

  /** The record add_vlan appends, once every check has passed: the id and the two flags
      overwrite whatever the dictionary held under those keys. */
  function Coerce(n: int, input: VlanInput): Vlan {
    Vlan(n, input.cidr, FieldTruthy(input.fields, "dhcp"), FieldTruthy(input.fields, "nat"),
         input.fields - RecordKeys)
  }

  /** The outcome of add_vlan: which error it raises or which record it appends.
      The library's verdict on the cidr string is the parameter cidrValid. */
  function AddOutcome(vlans: seq<Vlan>, input: VlanInput, cidrValid: string -> bool): Result<Vlan, AddError> {
    match input.id
    case DoesNotParse => Failure(InvalidVlanId)
    case Parses(n) =>
      if n < MinVlanId || n > MaxVlanId then Failure(InvalidVlanId)
      else if HasId(vlans, n) then Failure(DuplicateVlanId(n))
      else if !cidrValid(input.cidr) then Failure(InvalidCidr)
      else Success(Coerce(n, input))
  }

  /** Every record has a distinct id. */
  ghost predicate UniqueIds(vlans: seq<Vlan>) {
    forall i, j :: 0 <= i < j < |vlans| ==> vlans[i].id != vlans[j].id
  }

  /** What add_vlan guarantees of each record it admits. */
  ghost predicate Admitted(v: Vlan, cidrValid: string -> bool) {
    MinVlanId <= v.id <= MaxVlanId && cidrValid(v.cidr)
  }

  /** The invariant of a store built only through add_vlan and delete_vlan. */
  ghost predicate ValidStore(vlans: seq<Vlan>, cidrValid: string -> bool) {
    UniqueIds(vlans) && forall i :: 0 <= i < |vlans| ==> Admitted(vlans[i], cidrValid)
  }

  /** Number of records carrying id n. */
  function IdCount(vlans: seq<Vlan>, n: int): nat
    decreases |vlans|
  {
    if vlans == [] then 0
    else IdCount(vlans[..|vlans| - 1], n) + (if vlans[|vlans| - 1].id == n then 1 else 0)
  }

  /** The argument of delete_vlan: the web layer passes an int, other callers may pass a string. */
  datatype VlanKey = IntKey(n: int) | StrKey(s: string)

  /** str(vlan_id) */
  function KeyString(k: VlanKey): string {
    match k
    case IntKey(n) => DecimalString(n)
    case StrKey(s) => s
  }

  /** [v for v in vlans if str(v['id']) != key] */
  function RemoveId(vlans: seq<Vlan>, key: string): (r: seq<Vlan>)
    decreases |vlans|
  {
    if vlans == [] then []
    else
      Kept(vlans[0], key) + RemoveId(vlans[1..], key)
  }

  /** The one-record part of the filter: the record stays unless its id renders to key. */
  function Kept(v: Vlan, key: string): seq<Vlan> {
    if DecimalString(v.id) != key then [v] else []
  }

  // ---------------------------------------------------------------------------
  // add_vlan

  /** The checks run in a fixed order: a bad id wins over a duplicate, a duplicate wins over
      a bad cidr, and every check passing is exactly what it takes to append. */
  lemma AddValidationOrder(vlans: seq<Vlan>, input: VlanInput, cidrValid: string -> bool)
    ensures input.id.DoesNotParse? ==> AddOutcome(vlans, input, cidrValid) == Failure(InvalidVlanId)
    ensures input.id.Parses? && !(MinVlanId <= input.id.n <= MaxVlanId) ==>
              AddOutcome(vlans, input, cidrValid) == Failure(InvalidVlanId)
    ensures input.id.Parses? && MinVlanId <= input.id.n <= MaxVlanId && HasId(vlans, input.id.n) ==>
              AddOutcome(vlans, input, cidrValid) == Failure(DuplicateVlanId(input.id.n))
    ensures (input.id.Parses? && MinVlanId <= input.id.n <= MaxVlanId && !HasId(vlans, input.id.n) &&
             !cidrValid(input.cidr)) ==> AddOutcome(vlans, input, cidrValid) == Failure(InvalidCidr)
    ensures AddOutcome(vlans, input, cidrValid).Success? <==>
              input.id.Parses? && MinVlanId <= input.id.n <= MaxVlanId &&
              !HasId(vlans, input.id.n) && cidrValid(input.cidr)
  {
  }

  /** The record appended carries the parsed integer id, the cidr verbatim, dhcp and nat
      coerced to booleans, and every other field of the input unchanged. */
  lemma AddStoresRecord(vlans: seq<Vlan>, input: VlanInput, cidrValid: string -> bool)
    requires AddOutcome(vlans, input, cidrValid).Success?
    ensures var v := AddOutcome(vlans, input, cidrValid).value;
      && input.id == Parses(v.id)
      && v.cidr == input.cidr
      && v.dhcp == FieldTruthy(input.fields, "dhcp")
      && v.natEnabled == FieldTruthy(input.fields, "nat")
      && (forall k :: k in input.fields && k !in RecordKeys ==>
            k in v.fields && v.fields[k] == input.fields[k])
      && v.fields.Keys == input.fields.Keys - RecordKeys
  {
  }

  /** A record admitted by add_vlan satisfies the store invariant. */
  lemma AddAdmits(vlans: seq<Vlan>, input: VlanInput, cidrValid: string -> bool)
    requires AddOutcome(vlans, input, cidrValid).Success?
    ensures Admitted(AddOutcome(vlans, input, cidrValid).value, cidrValid)
  {
  }

  lemma {:induction false} IdCountZero(vlans: seq<Vlan>, n: int)
    ensures (IdCount(vlans, n) == 0) == !HasId(vlans, n)
    decreases |vlans|
  {
    if vlans != [] {
      var init := vlans[..|vlans| - 1];
      IdCountZero(init, n);
      assert forall i :: 0 <= i < |init| ==> init[i] == vlans[i];
      if HasId(init, n) {
        var i :| 0 <= i < |init| && init[i].id == n;
        assert vlans[i].id == n;
      }
    }
  }

  /** Adding keeps the store invariant, and afterwards exactly one record carries the new id. */
  lemma AddPreservesStore(vlans: seq<Vlan>, input: VlanInput, cidrValid: string -> bool)
    requires ValidStore(vlans, cidrValid)
    requires AddOutcome(vlans, input, cidrValid).Success?
    ensures var v := AddOutcome(vlans, input, cidrValid).value;
      ValidStore(vlans + [v], cidrValid) && IdCount(vlans + [v], v.id) == 1
  {
    var v := AddOutcome(vlans, input, cidrValid).value;
    var w := vlans + [v];
    assert w[..|w| - 1] == vlans;
    IdCountZero(vlans, v.id);
    forall i, j | 0 <= i < j < |w| ensures w[i].id != w[j].id {
      if j == |vlans| {
        assert vlans[i].id == w[i].id;
      }
    }
  }

  /** Adding the same dictionary a second time is rejected as a duplicate. */
  lemma AddTwiceRejected(vlans: seq<Vlan>, input: VlanInput, cidrValid: string -> bool)
    requires AddOutcome(vlans, input, cidrValid).Success?
    ensures var v := AddOutcome(vlans, input, cidrValid).value;
      AddOutcome(vlans + [v], input, cidrValid) == Failure(DuplicateVlanId(v.id))
  {
    var v := AddOutcome(vlans, input, cidrValid).value;
    assert (vlans + [v])[|vlans|].id == v.id;
  }

  /** The three error messages tell the three causes apart, and a duplicate names its id. */
  lemma MessagesDistinct(a: AddError, b: AddError)
    ensures Message(a) == Message(b) <==> a == b
  {
    if a.DuplicateVlanId? && b.DuplicateVlanId? && Message(a) == Message(b) {
      var da, db := DecimalString(a.id), DecimalString(b.id);
      assert Message(a)[8..|Message(a)| - 15] == da;
      assert Message(b)[8..|Message(b)| - 15] == db;
      DecimalStringInjective(a.id, b.id);
    } else if a.DuplicateVlanId? && !b.DuplicateVlanId? {
      assert Message(a)[1] == 'L' != Message(b)[1];
    } else if b.DuplicateVlanId? && !a.DuplicateVlanId? {
      assert Message(b)[1] == 'L' != Message(a)[1];
    }
  }

  // ---------------------------------------------------------------------------
  // delete_vlan

  /** A record survives the filter exactly when its id does not render to the key. */
  lemma {:induction false} RemoveIdMembers(vlans: seq<Vlan>, key: string)
    ensures |RemoveId(vlans, key)| <= |vlans|
    ensures forall v :: v in RemoveId(vlans, key) <==> v in vlans && DecimalString(v.id) != key
    decreases |vlans|
  {
    if vlans != [] {
      RemoveIdMembers(vlans[1..], key);
      assert forall v :: v in vlans <==> v == vlans[0] || v in vlans[1..];
    }
  }

  /** The filter keeps the relative order of the surviving records. */
  lemma {:induction false} RemoveIdAppend(a: seq<Vlan>, b: seq<Vlan>, key: string)
    ensures RemoveId(a + b, key) == RemoveId(a, key) + RemoveId(b, key)
    decreases |a|
  {
    if a != [] {
      var ab := a + b;
      assert ab[0] == a[0] && ab[1..] == a[1..] + b;
      RemoveIdAppend(a[1..], b, key);
      var k := Kept(a[0], key);
      assert RemoveId(ab, key) == k + (RemoveId(a[1..], key) + RemoveId(b, key));
    } else {
      assert a + b == b;
    }
  }

  /** Removing an id that no record renders to changes nothing. */
  lemma {:induction false} RemoveIdAbsent(vlans: seq<Vlan>, key: string)
    requires forall i :: 0 <= i < |vlans| ==> DecimalString(vlans[i].id) != key
    ensures RemoveId(vlans, key) == vlans
    decreases |vlans|
  {
    if vlans != [] {
      RemoveIdAbsent(vlans[1..], key);
      assert [vlans[0]] + vlans[1..] == vlans;
    }
  }

  /** Deleting twice is deleting once. */
  lemma RemoveIdIdempotent(vlans: seq<Vlan>, key: string)
    ensures RemoveId(RemoveId(vlans, key), key) == RemoveId(vlans, key)
  {
    var r := RemoveId(vlans, key);
    RemoveIdMembers(vlans, key);
    assert forall i :: 0 <= i < |r| ==> r[i] in r;
    RemoveIdAbsent(r, key);
  }

  /** Deleting by an integer id removes exactly the records with that id. */
  lemma RemoveIntKey(vlans: seq<Vlan>, n: int)
    ensures forall v :: v in RemoveId(vlans, KeyString(IntKey(n))) <==> v in vlans && v.id != n
  {
    RemoveIdMembers(vlans, DecimalString(n));
    forall v | v in vlans {
      DecimalStringInjective(v.id, n);
    }
  }

  /** delete_vlan undoes a successful add_vlan of the same id. */
  lemma AddThenDelete(vlans: seq<Vlan>, input: VlanInput, cidrValid: string -> bool)
    requires AddOutcome(vlans, input, cidrValid).Success?
    ensures var v := AddOutcome(vlans, input, cidrValid).value;
      RemoveId(vlans + [v], KeyString(IntKey(v.id))) == vlans
  {
    var v := AddOutcome(vlans, input, cidrValid).value;
    forall i | 0 <= i < |vlans| ensures DecimalString(vlans[i].id) != DecimalString(v.id) {
      DecimalStringInjective(vlans[i].id, v.id);
    }
    RemoveIdAppend(vlans, [v], DecimalString(v.id));
    RemoveIdAbsent(vlans, DecimalString(v.id));
    assert RemoveId([v], DecimalString(v.id)) == [];
  }

  /** Putting a record with a fresh id in front keeps the ids distinct. */
  lemma UniqueCons(x: Vlan, s: seq<Vlan>)
    requires UniqueIds(s)
    requires forall i :: 0 <= i < |s| ==> s[i].id != x.id
    ensures UniqueIds([x] + s)
  {
    var r := [x] + s;
    assert forall i :: 0 < i < |r| ==> r[i] == s[i - 1];
  }

  /** Deleting keeps the store invariant. */
  lemma {:induction false} RemovePreservesStore(vlans: seq<Vlan>, key: string, cidrValid: string -> bool)
    requires ValidStore(vlans, cidrValid)
    ensures ValidStore(RemoveId(vlans, key), cidrValid)
    decreases |vlans|
  {
    if vlans != [] {
      var tail := vlans[1..];
      assert ValidStore(tail, cidrValid) by {
        forall i, j | 0 <= i < j < |tail| ensures tail[i].id != tail[j].id {
          assert vlans[i + 1] == tail[i] && vlans[j + 1] == tail[j];
        }
      }
      RemovePreservesStore(tail, key, cidrValid);
      var rest := RemoveId(tail, key);
      if DecimalString(vlans[0].id) != key {
        assert RemoveId(vlans, key) == [vlans[0]] + rest;
        RemoveIdMembers(tail, key);
        forall i | 0 <= i < |rest| ensures rest[i].id != vlans[0].id {
          assert rest[i] in tail;
          var k :| 0 <= k < |tail| && tail[k] == rest[i];
          assert vlans[k + 1] == rest[i];
        }
        UniqueCons(vlans[0], rest);
      } else {
        assert RemoveId(vlans, key) == rest;
      }
    }
  }
}
