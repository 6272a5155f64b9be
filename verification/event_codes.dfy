/** Event code groups and event codes. The process-wide registry of groups, and each group's registry
    of codes, become one explicit `Registry` value that registration threads through; registration is
    insert-if-absent on the group id and on the code value within its group. */
module EventCodes {
  import opened Common
  import Decimal

  /** `ushort`. */
  type UInt16 = x: int | 0 <= x < 0x1_0000

  /** `int`. */
  type Int32 = x: int | -0x8000_0000 <= x < 0x8000_0000

  /** An `EventCodeGroup`: its id and optional debugger name. */
  datatype Group = Group(id: UInt16, debugName: Option<string>)

  /** An `EventCode`: the group it belongs to, its value and optional debugger name. */
  datatype Code = Code(group: Group, value: UInt16, debugName: Option<string>)

  /** Every group created so far, by id, and for each of them the codes created in it, by value. */
  datatype Registry = Registry(groups: map<UInt16, Group>, codes: map<UInt16, map<UInt16, Code>>)

  /** What registration hands back: the registry afterwards and the constructed object or the
      exception the constructor threw. */
  datatype Outcome<T> = Outcome(registry: Registry, result: Result<T>)

  /** Each group is filed under its own id and owns a (possibly empty) code table, and each code is
      filed under its own value in the table of its own group. */
  predicate Valid(reg: Registry)
  {
    && reg.groups.Keys == reg.codes.Keys
    && (forall id :: id in reg.groups ==> reg.groups[id].id == id)
    && (forall id, v :: id in reg.codes && v in reg.codes[id] ==>
          reg.codes[id][v].value == v && reg.codes[id][v].group == reg.groups[id])
  }

  /** A group object that exists, i.e. whose constructor returned. */
  predicate Registered(reg: Registry, g: Group)
  {
    g.id in reg.groups && reg.groups[g.id] == g && g.id in reg.codes
  }

  function Empty(): (reg: Registry)
    ensures Valid(reg) && reg.groups == map[]
  {
    Registry(map[], map[])
  }

  /** `new EventCodeGroup(id, name)`: an id already in use throws `ArgumentException` and changes
      nothing; otherwise the group is filed under its id with an empty code table. */
  function CreateGroup(reg: Registry, id: UInt16, debugName: Option<string>): (r: Outcome<Group>)
    ensures id in reg.groups ==>
      r == Outcome(reg, Err(Argument("id", "An event code group with the specified ID has already been created.")))
    ensures id !in reg.groups ==>
      r.result == Ok(Group(id, debugName)) &&
      r.registry.groups == reg.groups[id := Group(id, debugName)] &&
      r.registry.codes == reg.codes[id := map[]]
  {
    if id in reg.groups then
      Outcome(reg, Err(Argument("id", "An event code group with the specified ID has already been created.")))
    else
      var g := Group(id, debugName);
      Outcome(Registry(reg.groups[id := g], reg.codes[id := map[]]), Ok(g))
  }

  /** A group's code table with `c` filed under its value. */
  function File(table: map<UInt16, Code>, c: Code): (r: map<UInt16, Code>)
  {
    table[c.value := c]
  }

  /** `new EventCode(group, value, name)`: a null group throws `ArgumentNullException`, a value the
      group already holds throws `ArgumentException`; either way nothing changes. Otherwise the code
      is filed in its group's table. */
  function CreateCode(reg: Registry, group: Option<Group>, value: UInt16, debugName: Option<string>)
    : (r: Outcome<Code>)
    requires group.Some? ==> Registered(reg, group.value)
    ensures group.None? ==> r == Outcome(reg, Err(ArgumentNull("group")))
    ensures group.Some? && value in reg.codes[group.value.id] ==>
      r == Outcome(reg, Err(Argument("value",
        "The specified event code group already contains an event code with the specified value.")))
    ensures group.Some? && value !in reg.codes[group.value.id] ==>
      r.result == Ok(Code(group.value, value, debugName)) &&
      r.registry.groups == reg.groups &&
      r.registry.codes == reg.codes[group.value.id := File(reg.codes[group.value.id], r.result.value)]
  {
    match group
    case None => Outcome(reg, Err(ArgumentNull("group")))
    case Some(g) =>
      if value in reg.codes[g.id] then
        Outcome(reg, Err(Argument("value",
          "The specified event code group already contains an event code with the specified value.")))
      else
        var c := Code(g, value, debugName);
        Outcome(Registry(reg.groups, reg.codes[g.id := File(reg.codes[g.id], c)]), Ok(c))
  }

  /** `EventCodeGroup.Groups`. */
  function Groups(reg: Registry): set<Group>
  {
    reg.groups.Values
  }

  /** `group.EventCodes`. */
  function EventCodesOf(reg: Registry, g: Group): set<Code>
    requires Registered(reg, g)
  {
    reg.codes[g.id].Values
  }

  // ---------------------------------------------------------------------------------------------
  // Registration properties.

  lemma CreateGroupKeepsValid(reg: Registry, id: UInt16, debugName: Option<string>)
    requires Valid(reg)
    ensures Valid(CreateGroup(reg, id, debugName).registry)
  {
  }

  lemma CreateCodeKeepsValid(reg: Registry, group: Option<Group>, value: UInt16, debugName: Option<string>)
    requires Valid(reg) && (group.Some? ==> Registered(reg, group.value))
    ensures Valid(CreateCode(reg, group, value, debugName).registry)
  {
  }

  /** A newly created group is enumerable in `Groups`, is registered, and owns no codes yet; every
      group that existed before still does. */
  lemma CreatedGroupIsListed(reg: Registry, id: UInt16, debugName: Option<string>)
    requires id !in reg.groups
    ensures CreateGroup(reg, id, debugName).result.Ok?
    ensures Group(id, debugName) in Groups(CreateGroup(reg, id, debugName).registry)
    ensures Registered(CreateGroup(reg, id, debugName).registry, Group(id, debugName))
    ensures EventCodesOf(CreateGroup(reg, id, debugName).registry, Group(id, debugName)) == {}
    ensures Groups(reg) <= Groups(CreateGroup(reg, id, debugName).registry)
  {
    var after := CreateGroup(reg, id, debugName).registry;
    forall g | g in Groups(reg)
      ensures g in Groups(after)
    {
      var k :| k in reg.groups && reg.groups[k] == g;
      assert after.groups[k] == g;
    }
    assert after.groups[id] == Group(id, debugName);
  }

  /** Round trip: after a code is registered, its group's `EventCodes` holds it, and a second code
      with the same value in that group is refused. */
  lemma CreatedCodeIsListed(reg: Registry, g: Group, value: UInt16, debugName: Option<string>, other: Option<string>)
    requires Valid(reg) && Registered(reg, g) && value !in reg.codes[g.id]
    ensures CreateCode(reg, Some(g), value, debugName).result == Ok(Code(g, value, debugName))
    ensures Registered(CreateCode(reg, Some(g), value, debugName).registry, g)
    ensures Code(g, value, debugName) in EventCodesOf(CreateCode(reg, Some(g), value, debugName).registry, g)
    ensures CreateCode(CreateCode(reg, Some(g), value, debugName).registry, Some(g), value, other).result.Err?
  {
    var after := CreateCode(reg, Some(g), value, debugName).registry;
    assert after.codes[g.id][value] == Code(g, value, debugName);
  }

  /** Registering a code leaves every other group's codes alone. */
  lemma CreateCodeTouchesOneGroup(reg: Registry, g: Group, h: Group, value: UInt16, debugName: Option<string>)
    requires Registered(reg, g) && Registered(reg, h) && g.id != h.id
    ensures Registered(CreateCode(reg, Some(g), value, debugName).registry, h)
    ensures EventCodesOf(CreateCode(reg, Some(g), value, debugName).registry, h) == EventCodesOf(reg, h)
  {
  }

  // ---------------------------------------------------------------------------------------------
  // Groups: identity, order, hash and text.

  /** `group.Equals(other)`: never equal to null, otherwise equal exactly when the ids are. */
  function GroupEquals(g: Group, other: Option<Group>): (r: bool)
    ensures r <==> other.Some? && other.value.id == g.id
  {
    match other
    case None => false
    case Some(o) => g.id == o.id
  }

  /** `ushort.CompareTo`: the difference of the two values, so its sign orders them. */
  function CompareUInt16(a: UInt16, b: UInt16): (r: Int32)
    ensures r < 0 <==> a < b
    ensures r == 0 <==> a == b
    ensures r > 0 <==> a > b
  {
    a - b
  }

  /** `group.CompareTo(other)`: null sorts first, so anything is greater than it; otherwise the ids
      decide. */
  function GroupCompareTo(g: Group, other: Option<Group>): (r: Int32)
    ensures other.None? ==> r == 1
    ensures other.Some? ==> (r == 0 <==> GroupEquals(g, other))
    ensures other.Some? ==> (r < 0 <==> g.id < other.value.id)
  {
    match other
    case None => 1
    case Some(o) => CompareUInt16(g.id, o.id)
  }

  /** `==` on groups: two nulls are equal, one null is unequal to anything else. */
  function GroupOpEquals(left: Option<Group>, right: Option<Group>): (r: bool)
    ensures r <==> (left.None? && right.None?) || (left.Some? && right.Some? && left.value.id == right.value.id)
  {
    if left.None? then right.None? else GroupEquals(left.value, right)
  }

  /** `!=` on groups. */
  function GroupOpNotEquals(left: Option<Group>, right: Option<Group>): (r: bool)
    ensures r == !GroupOpEquals(left, right)
  {
    if left.None? then right.Some? else !GroupEquals(left.value, right)
  }

  /** `group.GetHashCode()`: the id itself, which equal groups share and unequal ones do not. */
  function GroupHash(g: Group): (r: Int32)
    ensures 0 <= r < 0x1_0000
  {
    g.id
  }

  /** `group.ToString()`: the id in invariant decimal digits. */
  function GroupToString(g: Group): (s: string)
    ensures 1 <= |s| && Decimal.AllDigits(s)
  {
    Decimal.FromNat(g.id)
  }

  /** The group's text reads back as its id. */
  lemma GroupToStringRoundTrip(g: Group)
    ensures Decimal.Parse(GroupToString(g)) == Some(g.id as nat)
  {
    Decimal.ParseFromNat(g.id);
  }

  lemma GroupHashAgreesWithEquals(g: Group, h: Group)
    ensures GroupEquals(g, Some(h)) <==> GroupHash(g) == GroupHash(h)
  {
  }

  /** `CompareTo` on groups is antisymmetric and transitive. */
  lemma GroupCompareToIsOrdering(a: Group, b: Group, c: Group)
    ensures GroupCompareTo(a, Some(b)) == -GroupCompareTo(b, Some(a))
    ensures GroupCompareTo(a, Some(b)) < 0 && GroupCompareTo(b, Some(c)) < 0 ==> GroupCompareTo(a, Some(c)) < 0
  {
  }

  // ---------------------------------------------------------------------------------------------
  // Codes: identity, order, hash and text.

  /** `code.Equals(other)`: never equal to null, otherwise equal exactly when the group ids and the
      values are. */
  function CodeEquals(c: Code, other: Option<Code>): (r: bool)
    ensures r <==> other.Some? && other.value.group.id == c.group.id && other.value.value == c.value
  {
    match other
    case None => false
    case Some(o) => GroupOpEquals(Some(c.group), Some(o.group)) && c.value == o.value
  }

  /** `code.CompareTo(other)`: null sorts first; otherwise lexicographic on (group, value). */
  function CodeCompareTo(c: Code, other: Option<Code>): (r: Int32)
    ensures other.None? ==> r == 1
    ensures other.Some? ==> (r == 0 <==> CodeEquals(c, other))
    ensures other.Some? ==>
      (r < 0 <==> c.group.id < other.value.group.id ||
                  (c.group.id == other.value.group.id && c.value < other.value.value))
  {
    match other
    case None => 1
    case Some(o) =>
      var buffer := GroupCompareTo(c.group, Some(o.group));
      if buffer == 0 then CompareUInt16(c.value, o.value) else buffer
  }

  /** `==` on codes. */
  function CodeOpEquals(left: Option<Code>, right: Option<Code>): (r: bool)
    ensures left.None? ==> (r <==> right.None?)
    ensures left.Some? ==> r == CodeEquals(left.value, right)
  {
    if left.None? then right.None? else CodeEquals(left.value, right)
  }

  /** `!=` on codes. */
  function CodeOpNotEquals(left: Option<Code>, right: Option<Code>): (r: bool)
    ensures r == !CodeOpEquals(left, right)
  {
    if left.None? then right.Some? else !CodeEquals(left.value, right)
  }

  /** The 32-bit pattern `(groupId << 16) | value` read as a signed `int`: shifting a `ushort` left by
      16 leaves the low half clear, so the `|` is an addition, and ids from 0x8000 up set the sign
      bit. */
  function CodeHash(c: Code): (r: Int32)
  {
    var bits := c.group.id * 0x1_0000 + c.value;
    if bits < 0x8000_0000 then bits else bits - 0x1_0000_0000
  }

  /** The hash recovers the (group id, value) pair, so it is injective on codes up to equality. */
  lemma CodeHashDecodes(c: Code)
    ensures (CodeHash(c) + 0x1_0000_0000) % 0x1_0000_0000 / 0x1_0000 == c.group.id
    ensures (CodeHash(c) + 0x1_0000_0000) % 0x1_0000_0000 % 0x1_0000 == c.value
  {
    var bits := c.group.id * 0x1_0000 + c.value;
    assert 0 <= bits < 0x1_0000_0000;
    assert (CodeHash(c) + 0x1_0000_0000) % 0x1_0000_0000 == bits;
  }

  lemma CodeHashInjective(a: Code, b: Code)
    ensures CodeHash(a) == CodeHash(b) <==> CodeEquals(a, Some(b))
  {
    CodeHashDecodes(a);
    CodeHashDecodes(b);
  }

  /** `code.ToString()`: "{groupId}-{value}" in invariant digits. */
  function CodeToString(c: Code): (s: string)
  {
    Decimal.FromNat(c.group.id) + "-" + Decimal.FromNat(c.value)
  }

  /** The position of the first '-' in `s`, or `|s|` when there is none. */
  function IndexOfDash(s: string): (i: nat)
    ensures i <= |s|
    ensures forall j :: 0 <= j < i ==> s[j] != '-'
    ensures i < |s| ==> s[i] == '-'
  {
    if s == [] then 0 else if s[0] == '-' then 0 else 1 + IndexOfDash(s[1..])
  }

  /** Reads "{groupId}-{value}" back into its two numbers. */
  function ParseCodeString(s: string): (r: Option<(nat, nat)>)
    ensures r.Some? ==>
      && IndexOfDash(s) < |s|
      && Decimal.Parse(s[..IndexOfDash(s)]) == Some(r.value.0)
      && Decimal.Parse(s[IndexOfDash(s) + 1..]) == Some(r.value.1)
  {
    var i := IndexOfDash(s);
    if i == |s| then None
    else
      match (Decimal.Parse(s[..i]), Decimal.Parse(s[i + 1..]))
      case (Some(g), Some(v)) => Some((g, v))
      case _ => None
  }

  /** The code's text reads back as its (group id, value) pair. */
  lemma CodeToStringRoundTrip(c: Code)
    ensures ParseCodeString(CodeToString(c)) == Some((c.group.id as nat, c.value as nat))
  {
    var x, y := Decimal.FromNat(c.group.id), Decimal.FromNat(c.value);
    var s := CodeToString(c);
    assert s[|x|] == '-';
    var i := IndexOfDash(s);
    assert i == |x|;
    assert s[..i] == x;
    assert s[i + 1..] == y;
    Decimal.ParseFromNat(c.group.id);
    Decimal.ParseFromNat(c.value);
  }

  /** Codes with the same text are equal. */
  lemma CodeToStringInjective(a: Code, b: Code)
    ensures CodeToString(a) == CodeToString(b) <==> CodeEquals(a, Some(b))
  {
    CodeToStringRoundTrip(a);
    CodeToStringRoundTrip(b);
  }

  /** `CompareTo` on codes is antisymmetric and transitive. */
  lemma CodeCompareToIsOrdering(a: Code, b: Code, c: Code)
    ensures CodeCompareTo(a, Some(b)) == -CodeCompareTo(b, Some(a))
    ensures CodeCompareTo(a, Some(b)) < 0 && CodeCompareTo(b, Some(c)) < 0 ==> CodeCompareTo(a, Some(c)) < 0
  {
  }

  /** Two codes filed in a valid registry are the same object exactly when they are `Equals`. */
  lemma RegisteredCodesAreUnique(reg: Registry, g: Group, h: Group, a: Code, b: Code)
    requires Valid(reg) && Registered(reg, g) && Registered(reg, h)
    requires a in EventCodesOf(reg, g) && b in EventCodesOf(reg, h)
    ensures CodeEquals(a, Some(b)) ==> a == b
  {
    var va :| va in reg.codes[g.id] && reg.codes[g.id][va] == a;
    var vb :| vb in reg.codes[h.id] && reg.codes[h.id][vb] == b;
  }
}
