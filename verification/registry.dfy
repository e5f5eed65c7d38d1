/** The registry: the message table `messages` and the public class table
    `codes`, populated by `E`. The class published for a code carries, as
    named properties, sibling classes for further base kinds. */
module Registry {
  import opened Seqs
  import opened Values
  import opened Kinds
  import opened Messages
  import opened NodeErrors

  /** What `codes[sym]` holds: the primary class, and the sibling classes
      attached to it under their base class's name. */
  datatype CodeEntry = CodeEntry(primary: NodeErrorClass, siblings: map<string, NodeErrorClass>)

  datatype Registry = Registry(messages: map<Code, MessageSpec>, codes: map<Code, CodeEntry>)

  const Empty: Registry := Registry(map[], map[])

  /** One call `E(code, spec, base, ...others)`. */
  datatype Registration = Registration(code: Code, spec: MessageSpec, base: BaseKind, others: seq<BaseKind>)

  /** No base kind after position `i` has the same name as the one at `i`:
      its sibling is the one left standing. */
  ghost predicate LastWithName(others: seq<BaseKind>, i: int)
    requires 0 <= i < |others|
  {
    forall j :: i < j < |others| ==> BaseName(others[j]) != BaseName(others[i])
  }

  /** What the sibling table for `others` holds: one entry per distinct
      base name, each made for `sym`, and the last kind with a given name
      is the one published under it. */
  ghost predicate SiblingsSpec(others: seq<BaseKind>, sym: Code, m: map<string, NodeErrorClass>) {
    SiblingsShape(others, sym, m) && SiblingsLast(others, sym, m)
  }

  ghost predicate SiblingsShape(others: seq<BaseKind>, sym: Code, m: map<string, NodeErrorClass>) {
    && m.Keys == (set c | c in others :: BaseName(c))
    && (forall n :: n in m ==> m[n].key == sym && BaseName(m[n].base) == n)
  }

  ghost predicate SiblingsLast(others: seq<BaseKind>, sym: Code, m: map<string, NodeErrorClass>) {
    forall i :: 0 <= i < |others| && LastWithName(others, i) ==>
      BaseName(others[i]) in m && m[BaseName(others[i])] == NodeErrorClass(others[i], sym)
  }

  /** The sibling classes `E` attaches, one per extra base kind in order,
      each assignment overwriting an earlier one under the same name. */
  function Siblings(others: seq<BaseKind>, sym: Code): (m: map<string, NodeErrorClass>)
    ensures SiblingsSpec(others, sym, m)
    decreases |others|
  {
    if |others| == 0 then map[]
    else
      var c := others[|others| - 1];
      var init := others[..|others| - 1];
      var m := Siblings(init, sym);
      SiblingsStep(init, c, sym, m);
      SplitLast(others);
      m[BaseName(c) := NodeErrorClass(c, sym)]
  }

  /** Attaching one more sibling keeps the sibling table's description. */
  lemma SiblingsStep(init: seq<BaseKind>, c: BaseKind, sym: Code, m: map<string, NodeErrorClass>)
    requires SiblingsSpec(init, sym, m)
    ensures SiblingsSpec(init + [c], sym, m[BaseName(c) := NodeErrorClass(c, sym)])
  {
    SiblingsShapeStep(init, c, sym, m);
    SiblingsLastStep(init, c, sym, m);
  }

  lemma SiblingsShapeStep(init: seq<BaseKind>, c: BaseKind, sym: Code, m: map<string, NodeErrorClass>)
    requires SiblingsShape(init, sym, m)
    ensures SiblingsShape(init + [c], sym, m[BaseName(c) := NodeErrorClass(c, sym)])
  {
    var others := init + [c];
    assert forall x :: x in others <==> x in init || x == c;
  }

  lemma SiblingsLastStep(init: seq<BaseKind>, c: BaseKind, sym: Code, m: map<string, NodeErrorClass>)
    requires SiblingsLast(init, sym, m)
    ensures SiblingsLast(init + [c], sym, m[BaseName(c) := NodeErrorClass(c, sym)])
  {
    var others := init + [c];
    var m' := m[BaseName(c) := NodeErrorClass(c, sym)];
    forall i | 0 <= i < |others| && LastWithName(others, i)
      ensures BaseName(others[i]) in m' && m'[BaseName(others[i])] == NodeErrorClass(others[i], sym)
    {
      if i < |init| {
        assert others[i] == init[i];
        assert others[|init|] == c;
        assert BaseName(init[i]) != BaseName(c);
        assert LastWithName(init, i) by {
          assert forall j :: i < j < |init| ==> init[j] == others[j];
        }
      }
    }
  }

  /** Each extra base kind can be found under its own name: distinct base
      kinds have distinct names, so no other kind overwrites its sibling. */
  lemma SiblingFor(others: seq<BaseKind>, sym: Code, k: BaseKind)
    requires k in others
    ensures BaseName(k) in Siblings(others, sym)
    ensures Siblings(others, sym)[BaseName(k)] == NodeErrorClass(k, sym)
  {
    var m := Siblings(others, sym);
    assert BaseName(k) in m;
    BaseNameInjective(m[BaseName(k)].base, k);
  }

  /** `E(sym, val, def, ...others)`. */
  function Register(reg: Registry, sym: Code, val: MessageSpec, def: BaseKind, others: seq<BaseKind>): (r: Registry)
    ensures sym in r.messages && r.messages[sym] == val
    ensures sym in r.codes && r.codes[sym].primary == NodeErrorClass(def, sym)
    ensures r.codes[sym].siblings == Siblings(others, sym)
    ensures r.messages.Keys == reg.messages.Keys + {sym}
    ensures r.codes.Keys == reg.codes.Keys + {sym}
    ensures forall k :: k in reg.messages && k != sym ==> r.messages[k] == reg.messages[k]
    ensures forall k :: k in reg.codes && k != sym ==> r.codes[k] == reg.codes[k]
  {
    Registry(reg.messages[sym := val], reg.codes[sym := CodeEntry(NodeErrorClass(def, sym), Siblings(others, sym))])
  }

  /** Every published code has a message, and every class published under
      a code, primary or sibling, was synthesized for that code. */
  ghost predicate WellFormed(reg: Registry) {
    && reg.codes.Keys == reg.messages.Keys
    && forall k :: k in reg.codes ==>
         && reg.codes[k].primary.key == k
         && forall n :: n in reg.codes[k].siblings ==> reg.codes[k].siblings[n].key == k
  }

  lemma RegisterPreservesWellFormed(reg: Registry, sym: Code, val: MessageSpec, def: BaseKind, others: seq<BaseKind>)
    requires WellFormed(reg)
    ensures WellFormed(Register(reg, sym, val, def, others))
  {
  }

  /** The classes a code publishes: the primary one and its siblings. */
  ghost predicate Published(reg: Registry, k: Code, cls: NodeErrorClass) {
    k in reg.codes && (cls == reg.codes[k].primary || cls in reg.codes[k].siblings.Values)
  }

  /** Constructing any class a well-formed registry publishes under `k`
      gives an instance whose code is `k` and whose message is rendered from
      the spec stored under `k`. */
  lemma PublishedInstance(reg: Registry, k: Code, cls: NodeErrorClass, args: seq<Value>)
    requires WellFormed(reg)
    requires Published(reg, k, cls)
    ensures Construct(reg.messages, cls, args).code == k
    ensures Construct(reg.messages, cls, args).message == RenderSpec(reg.messages[k], args, cls)
  {
    if cls != reg.codes[k].primary {
      var n :| n in reg.codes[k].siblings && reg.codes[k].siblings[n] == cls;
    }
  }

  /** The codes a table of registrations mentions. */
  ghost function CodesOf(table: seq<Registration>): set<Code> {
    set i | 0 <= i < |table| :: table[i].code
  }

  /** No later registration in the table reuses the code at position `i`. */
  ghost predicate LastWithCode(table: seq<Registration>, i: int)
    requires 0 <= i < |table|
  {
    forall j :: i < j < |table| ==> table[j].code != table[i].code
  }

  /** The entry `E` publishes for one registration. */
  function EntryFor(t: Registration): CodeEntry {
    CodeEntry(NodeErrorClass(t.base, t.code), Siblings(t.others, t.code))
  }

  /** What running `table` on `reg` leaves: the table's codes are added,
      every other code keeps its entry, and each code holds the message and
      classes of the last registration that used it. */
  ghost predicate RegisterAllSpec(reg: Registry, table: seq<Registration>, r: Registry) {
    RegisterAllFrame(reg, table, r) && RegisterAllLast(table, r)
  }

  ghost predicate RegisterAllFrame(reg: Registry, table: seq<Registration>, r: Registry) {
    RegisterAllKeys(reg, table, r) && RegisterAllKeeps(reg, table, r)
  }

  ghost predicate RegisterAllKeys(reg: Registry, table: seq<Registration>, r: Registry) {
    && r.messages.Keys == reg.messages.Keys + CodesOf(table)
    && r.codes.Keys == reg.codes.Keys + CodesOf(table)
  }

  ghost predicate RegisterAllKeeps(reg: Registry, table: seq<Registration>, r: Registry) {
    && (forall k :: k in reg.messages && k !in CodesOf(table) ==> k in r.messages && r.messages[k] == reg.messages[k])
    && (forall k :: k in reg.codes && k !in CodesOf(table) ==> k in r.codes && r.codes[k] == reg.codes[k])
  }

  ghost predicate RegisterAllLast(table: seq<Registration>, r: Registry) {
    forall i :: 0 <= i < |table| && LastWithCode(table, i) ==>
      && table[i].code in r.messages && r.messages[table[i].code] == table[i].spec
      && table[i].code in r.codes && r.codes[table[i].code] == EntryFor(table[i])
  }

  /** Running the registrations of `table` in order on `reg`. */
  function RegisterAll(reg: Registry, table: seq<Registration>): (r: Registry)
    ensures RegisterAllSpec(reg, table, r)
    decreases |table|
  {
    if |table| == 0 then reg
    else
      var t := table[|table| - 1];
      var init := table[..|table| - 1];
      var r := RegisterAll(reg, init);
      RegisterAllStep(reg, init, t, r);
      SplitLast(table);
      Register(r, t.code, t.spec, t.base, t.others)
  }

  /** Running one more registration keeps the description of the result. */
  lemma RegisterAllStep(reg: Registry, init: seq<Registration>, t: Registration, r: Registry)
    requires RegisterAllSpec(reg, init, r)
    ensures RegisterAllSpec(reg, init + [t], Register(r, t.code, t.spec, t.base, t.others))
  {
    RegisterAllFrameStep(reg, init, t, r);
    RegisterAllLastStep(init, t, r);
  }

  lemma RegisterAllFrameStep(reg: Registry, init: seq<Registration>, t: Registration, r: Registry)
    requires RegisterAllFrame(reg, init, r)
    ensures RegisterAllFrame(reg, init + [t], Register(r, t.code, t.spec, t.base, t.others))
  {
    CodesOfSnoc(init, t);
    RegisterAllKeysStep(reg, init, t, r);
    RegisterAllKeepsStep(reg, init, t, r);
  }

  lemma RegisterAllKeysStep(reg: Registry, init: seq<Registration>, t: Registration, r: Registry)
    requires RegisterAllKeys(reg, init, r)
    requires CodesOf(init + [t]) == CodesOf(init) + {t.code}
    ensures RegisterAllKeys(reg, init + [t], Register(r, t.code, t.spec, t.base, t.others))
  {
  }

  lemma RegisterAllKeepsStep(reg: Registry, init: seq<Registration>, t: Registration, r: Registry)
    requires RegisterAllKeeps(reg, init, r)
    requires CodesOf(init + [t]) == CodesOf(init) + {t.code}
    ensures RegisterAllKeeps(reg, init + [t], Register(r, t.code, t.spec, t.base, t.others))
  {
  }

  lemma RegisterAllLastStep(init: seq<Registration>, t: Registration, r: Registry)
    requires RegisterAllLast(init, r)
    ensures RegisterAllLast(init + [t], Register(r, t.code, t.spec, t.base, t.others))
  {
    var table := init + [t];
    var r' := Register(r, t.code, t.spec, t.base, t.others);
    forall i | 0 <= i < |table| && LastWithCode(table, i)
      ensures && table[i].code in r'.messages && r'.messages[table[i].code] == table[i].spec
              && table[i].code in r'.codes && r'.codes[table[i].code] == EntryFor(table[i])
    {
      if i < |init| {
        assert table[i] == init[i];
        assert table[|init|] == t;
        assert init[i].code != t.code;
        assert LastWithCode(init, i) by {
          assert forall j :: i < j < |init| ==> init[j] == table[j];
        }
      }
    }
  }

  lemma CodesOfSnoc(init: seq<Registration>, t: Registration)
    ensures CodesOf(init + [t]) == CodesOf(init) + {t.code}
  {
    var table := init + [t];
    assert forall i :: 0 <= i < |init| ==> table[i] == init[i];
    assert table[|init|] == t;
  }

  /** Running a table from a well-formed registry leaves a well-formed one. */
  lemma {:induction false} RegisterAllPreservesWellFormed(reg: Registry, table: seq<Registration>)
    requires WellFormed(reg)
    ensures WellFormed(RegisterAll(reg, table))
    decreases |table|
  {
    if |table| > 0 {
      var t := table[|table| - 1];
      RegisterAllPreservesWellFormed(reg, table[..|table| - 1]);
      RegisterPreservesWellFormed(RegisterAll(reg, table[..|table| - 1]), t.code, t.spec, t.base, t.others);
    }
  }

  /** In a table whose codes are distinct, every registration survives. */
  lemma DistinctTableEntry(reg: Registry, table: seq<Registration>, i: nat)
    requires forall i, j :: 0 <= i < j < |table| ==> table[i].code != table[j].code
    requires i < |table|
    ensures table[i].code in RegisterAll(reg, table).messages
    ensures RegisterAll(reg, table).messages[table[i].code] == table[i].spec
    ensures table[i].code in RegisterAll(reg, table).codes
    ensures RegisterAll(reg, table).codes[table[i].code] == EntryFor(table[i])
  {
    assert LastWithCode(table, i);
  }

  /** A table whose codes are distinct mentions as many codes as it has
      registrations. */
  lemma {:induction false} DistinctCodesCount(table: seq<Registration>)
    requires forall i, j :: 0 <= i < j < |table| ==> table[i].code != table[j].code
    ensures |CodesOf(table)| == |table|
    decreases |table|
  {
    if |table| > 0 {
      var init := table[..|table| - 1];
      var t := table[|table| - 1];
      assert init + [t] == table;
      CodesOfSnoc(init, t);
      assert t.code !in CodesOf(init) by {
        forall i | 0 <= i < |init| ensures init[i].code != t.code {
          assert init[i] == table[i];
        }
      }
      DistinctCodesCount(init);
    }
  }

  /** Loading a table of distinct codes publishes one code per
      registration. */
  lemma DistinctTableCount(table: seq<Registration>)
    requires forall i, j :: 0 <= i < j < |table| ==> table[i].code != table[j].code
    ensures |RegisterAll(Empty, table).codes| == |RegisterAll(Empty, table).messages| == |table|
  {
    DistinctCodesCount(table);
    var r := RegisterAll(Empty, table);
    assert r.codes.Keys == CodesOf(table);
    assert r.messages.Keys == CodesOf(table);
  }
}
