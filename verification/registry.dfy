/**
  The module registry of gateway/test_all.py: a map from MAC address to a
  record holding a name, the id, the type ('tag' or 'anchor'; `add_module`
  always stores one, a hand-edited file may lack it) and a status ('active' or 'disable'). The registry is the
  content of module.json; loading and saving the file are the identity here,
  so an operation that loads, edits and saves is a function from the stored
  registry to the stored registry.
 */
module Registry {
  import opened Wrappers
  import Text
  import OperationMode

  datatype Module = Module(name: string, id: string, kind: Option<string>, status: string)

  type Modules = map<string, Module>

  const ACTIVE: string := "active"
  const DISABLED: string := "disable"
  const ANCHOR: string := "anchor"

  // ---------------------------------------------------------------- filters

  /**
    `scan_and_connect`: a connection task is started, in discovery order,
    for each discovered MAC the registry holds with status 'active'.
   */
  function ScanTargets(reg: Modules, discovered: seq<string>): (r: seq<string>)
    ensures forall m :: m in r <==> m in discovered && m in reg && reg[m].status == ACTIVE
    ensures |r| <= |discovered|
  {
    if discovered == [] then []
    else
      var m := discovered[0];
      var rest := ScanTargets(reg, discovered[1..]);
      assert forall x :: x in discovered <==> x == m || x in discovered[1..];
      if m in reg && reg[m].status == ACTIVE then [m] + rest else rest
  }

  /** The filter keeps discovery order: the targets are a subsequence of the discovered MACs. */
  lemma {:induction false} ScanTargetsInOrder(reg: Modules, discovered: seq<string>)
    ensures IsSubsequence(ScanTargets(reg, discovered), discovered)
  {
    if discovered != [] {
      ScanTargetsInOrder(reg, discovered[1..]);
      var m := discovered[0];
      var rest := ScanTargets(reg, discovered[1..]);
      if m in reg && reg[m].status == ACTIVE {
        assert ScanTargets(reg, discovered) == [m] + rest;
        assert discovered == [m] + discovered[1..];
      }
    }
  }

  /** `a` is `b` with some elements removed. */
  predicate IsSubsequence(a: seq<string>, b: seq<string>)
    decreases |b|
  {
    if a == [] then true
    else if b == [] then false
    else if a[0] == b[0] then IsSubsequence(a[1..], b[1..])
    else IsSubsequence(a, b[1..])
  }

  /** `check_anchor_status`: the entries whose type is 'anchor' and whose status is 'active'. */
  function AnchorsToCheck(reg: Modules): (r: set<string>)
    ensures r <= reg.Keys
    ensures forall m :: m in r <==> m in reg && reg[m].kind == Some(ANCHOR) && reg[m].status == ACTIVE
  {
    set m | m in reg && reg[m].kind == Some(ANCHOR) && reg[m].status == ACTIVE
  }

  // ---------------------------------------------------------------- add and delete

  /** `mac[-6:]`: the last six characters, or all of a shorter string. */
  function Suffix(s: string, n: nat): (r: string)
    ensures |r| == if |s| <= n then |s| else n
    ensures s == s[..|s| - |r|] + r
  {
    if |s| <= n then s else s[|s| - n..]
  }

  /** The record `add_module` stores for a new MAC. */
  function NewModule(mac: string, role: OperationMode.NodeType): Module
  {
    Module("Module_" + Suffix(mac, 6), mac, Some(OperationMode.RoleName(role)), ACTIVE)
  }

  /**
    `add_module`: nothing happens for a MAC already present. Otherwise
    `bytes.fromhex` and `decode_operation_mode` may raise, before anything is
    saved; on success the new record is saved. The Bluetooth write that
    follows cannot change what was saved, since its errors are caught.
   */
  function AddModule(reg: Modules, mac: string, operationMode: string): (r: Result<Modules>)
    ensures mac in reg ==> r == Success(reg)
    ensures r.Failure? <==> mac !in reg && (Text.FromHex(operationMode).Failure? || Text.FromHex(operationMode).value == [])
    ensures r.Success? ==> mac in r.value
    ensures r.Success? ==> forall k :: k != mac ==> (k in r.value <==> k in reg) && (k in reg ==> r.value[k] == reg[k])
    ensures r.Success? && mac !in reg ==>
      var op := Text.FromHex(operationMode).value;
      && r.value[mac].id == mac && r.value[mac].status == ACTIVE
      && r.value[mac].kind == Some(if op[0] < 128 then "tag" else ANCHOR)
      && r.value[mac].name == "Module_" + Suffix(mac, 6)
      && |r.value[mac].name| == 7 + (if |mac| < 6 then |mac| else 6)
  {
    if mac in reg then Success(reg)
    else
      match Text.FromHex(operationMode)
      case Failure(e) => Failure(e)
      case Success(op) =>
        match OperationMode.RoleOf(op)
        case Failure(e) => Failure(e)
        case Success(role) => Success(reg[mac := NewModule(mac, role)])
  }

  /** `delete_module`: removes that key only; an absent key is a no-op. */
  function DeleteModule(reg: Modules, mac: string): (r: Modules)
    ensures mac !in r
    ensures forall k :: k != mac ==> (k in r <==> k in reg) && (k in r ==> r[k] == reg[k])
    ensures mac !in reg ==> r == reg
  {
    if mac in reg then reg - {mac} else reg
  }

  /** Deleting a MAC just added restores the registry. */
  lemma DeleteUndoesAdd(reg: Modules, mac: string, operationMode: string)
    requires mac !in reg && AddModule(reg, mac, operationMode).Success?
    ensures DeleteModule(AddModule(reg, mac, operationMode).value, mac) == reg
  {
    var d := DeleteModule(AddModule(reg, mac, operationMode).value, mac);
    assert d.Keys == reg.Keys;
  }

  /** A second add of the same MAC changes nothing, whatever operation mode it carries. */
  lemma AddIdempotent(reg: Modules, mac: string, first: string, second: string)
    requires AddModule(reg, mac, first).Success?
    ensures AddModule(AddModule(reg, mac, first).value, mac, second) == AddModule(reg, mac, first)
  {
  }

  /**
    Adding an anchor under the hex `encode_operation_mode('anchor').hex()`
    makes it a target of the next scan and of the anchor check; deleting it
    removes it from both.
   */
  lemma AddedAnchorIsWatched(reg: Modules, mac: string, discovered: seq<string>)
    requires mac !in reg && mac in discovered
    ensures var added := AddModule(reg, mac, Text.Hex(OperationMode.EncodeRole(ANCHOR)));
      && added.Success?
      && mac in ScanTargets(added.value, discovered)
      && mac in AnchorsToCheck(added.value)
      && mac !in ScanTargets(DeleteModule(added.value, mac), discovered)
      && mac !in AnchorsToCheck(DeleteModule(added.value, mac))
  {
    var bytes := OperationMode.EncodeRole(ANCHOR);
    Text.FromHexOfHex(bytes);
    assert ANCHOR != "tag";
  }

  // ---------------------------------------------------------------- recording what a connection learnt

  /** An edit `connect_and_collect_data` or `check_single_anchor` makes to the in-memory record. */
  datatype Edit = SetKind(kind: string) | SetStatus(status: string)

  function Apply(m: Module, e: Edit): Module
  {
    match e
    case SetKind(k) => m.(kind := Some(k))
    case SetStatus(st) => m.(status := st)
  }

  /**
    What the file holds after `module[...] = v; save_modules(load_modules())`:
    the edit is made to the dict the caller holds, and the registry reloaded
    from the file is written back, so the stored registry stays as it was.
    Whenever the edit changes the record, the file therefore differs from
    the registry with the edit recorded.
   */
  function RecordAsWritten(stored: Modules, mac: string, e: Edit): (r: Modules)
    ensures r.Keys == stored.Keys
    ensures forall k :: k in stored ==> r[k] == stored[k]
    ensures mac in stored && Apply(stored[mac], e) != stored[mac] ==> r != Record(stored, mac, e)
  {
    stored
  }

  /** The edit persisted, as the comment "update type in module.json" intends. */
  function Record(stored: Modules, mac: string, e: Edit): (r: Modules)
    ensures r.Keys == stored.Keys
    ensures mac in stored ==> r[mac] == Apply(stored[mac], e)
    ensures forall k :: k in stored && k != mac ==> r[k] == stored[k]
  {
    if mac in stored then stored[mac := Apply(stored[mac], e)] else stored
  }

  /**
    A module whose connection failed is never marked 'disable' in the file,
    so every later scan that discovers it connects to it again. A type
    learnt on connection is likewise never stored: a module whose stored
    type is not 'anchor' (its operation-mode write at `add_module` failed,
    or the file was edited by hand) stays out of the anchor check even once
    the connection has learnt that it is an anchor.
   */
  lemma AsWrittenEditLost(stored: Modules, mac: string, discovered: seq<string>)
    requires mac in stored && stored[mac].status == ACTIVE && mac in discovered
    ensures mac in ScanTargets(RecordAsWritten(stored, mac, SetStatus(DISABLED)), discovered)
    ensures stored[mac].kind != Some(ANCHOR) ==> mac !in AnchorsToCheck(RecordAsWritten(stored, mac, SetKind(ANCHOR)))
  {
  }

  /**
    With the edit persisted, a failed module leaves the scan targets and an
    active module whose type was learnt as 'anchor' enters the anchor check;
    nothing else in the registry changes.
   */
  lemma RecordedEditTakesEffect(stored: Modules, mac: string, discovered: seq<string>)
    requires mac in stored && stored[mac].status == ACTIVE
    ensures mac !in ScanTargets(Record(stored, mac, SetStatus(DISABLED)), discovered)
    ensures mac in AnchorsToCheck(Record(stored, mac, SetKind(ANCHOR)))
    ensures AnchorsToCheck(Record(stored, mac, SetKind(ANCHOR))) == AnchorsToCheck(stored) + {mac}
  {
    var r := Record(stored, mac, SetKind(ANCHOR));
    assert forall k :: k in AnchorsToCheck(r) <==> k in AnchorsToCheck(stored) || k == mac;
  }
}
