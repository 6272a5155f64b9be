/** `NonNullList<TItem, TDerived>`: an append-only list that refuses null items. The nullable input a
    constructor enumerates is a sequence of `Option`s; the list itself holds plain items, so "no
    element is null" holds by construction. */
module NonNullLists {
  import opened Common
  import Decimal

  datatype NonNullList<T> = NonNullList(items: seq<T>)

  /** The position of the first null in `s`, or `|s|` when there is none. */
  function FirstNull<T>(s: seq<Option<T>>): (i: nat)
    ensures i <= |s|
    ensures forall j :: 0 <= j < i ==> s[j].Some?
    ensures i < |s| ==> s[i].None?
  {
    if s == [] then 0 else if s[0].None? then 0 else 1 + FirstNull(s[1..])
  }

  /** The items of a sequence that holds no null. */
  function Unwrap<T>(s: seq<Option<T>>): (r: seq<T>)
    requires forall j :: 0 <= j < |s| ==> s[j].Some?
    ensures |r| == |s|
    ensures forall j :: 0 <= j < |s| ==> s[j] == Some(r[j])
  {
    if s == [] then [] else [s[0].value] + Unwrap(s[1..])
  }

  /** The items as a nullable sequence. */
  function Wrap<T>(items: seq<T>): (s: seq<Option<T>>)
    ensures |s| == |items|
    ensures forall j :: 0 <= j < |items| ==> s[j] == Some(items[j])
  {
    if items == [] then [] else [Some(items[0])] + Wrap(items[1..])
  }

  /** The message of the `ArgumentException` for a null at `index`. */
  function NullItemMessage(index: nat): string
  {
    "Item at index " + Decimal.FromNat(index) + " is null."
  }

  /** `new NonNullList()`. */
  function Empty<T>(): (l: NonNullList<T>)
    ensures Count(l) == 0
  {
    NonNullList([])
  }

  /** `new NonNullList(capacity)`: a negative capacity throws; otherwise the list is empty. */
  function WithCapacity<T>(capacity: int): (r: Result<NonNullList<T>>)
    ensures capacity < 0 <==> r == Err(ArgumentOutOfRange("capacity"))
    ensures capacity >= 0 ==> r == Ok(Empty())
  {
    if capacity < 0 then Err(ArgumentOutOfRange("capacity")) else Ok(NonNullList([]))
  }

  /** The copying constructor every source-taking constructor forwards to: a null source throws
      `ArgumentNullException` naming the source parameter; a negative capacity throws next; then the
      items are copied in order until the first null, whose index the `ArgumentException` names. */
  method FromSource<T>(source: Option<seq<Option<T>>>, capacity: int, paramName: string) returns (r: Result<NonNullList<T>>)
    ensures source.None? ==> r == Err(ArgumentNull(paramName))
    ensures source.Some? && capacity < 0 ==> r == Err(ArgumentOutOfRange("capacity"))
    ensures source.Some? && capacity >= 0 && FirstNull(source.value) < |source.value| ==>
      r == Err(Argument(paramName, NullItemMessage(FirstNull(source.value))))
    ensures source.Some? && capacity >= 0 && FirstNull(source.value) == |source.value| ==>
      r.Ok? && |r.value.items| == |source.value| &&
      forall j :: 0 <= j < |source.value| ==> source.value[j] == Some(r.value.items[j])
  {
    if source.None? {
      return Err(ArgumentNull(paramName));
    }
    if capacity < 0 {
      return Err(ArgumentOutOfRange("capacity"));
    }
    var s := source.value;
    var items: seq<T> := [];
    var counter := 0;
    while counter < |s|
      invariant 0 <= counter <= |s|
      invariant |items| == counter
      invariant forall j :: 0 <= j < counter ==> s[j] == Some(items[j])
    {
      if s[counter].None? {
        FirstNullIsFirst(s, counter);
        return Err(Argument(paramName, NullItemMessage(counter)));
      }
      items := items + [s[counter].value];
      counter := counter + 1;
    }
    FirstNullIsFirst(s, counter);
    return Ok(NonNullList(items));
  }

  /** The `params TItem[]` constructor: the capacity is the array's length (0 for null). */
  method FromParams<T>(itemParams: Option<seq<Option<T>>>) returns (r: Result<NonNullList<T>>)
    ensures itemParams.None? ==> r == Err(ArgumentNull("itemParams"))
    ensures itemParams.Some? && FirstNull(itemParams.value) < |itemParams.value| ==>
      r == Err(Argument("itemParams", NullItemMessage(FirstNull(itemParams.value))))
    ensures itemParams.Some? && FirstNull(itemParams.value) == |itemParams.value| ==>
      r == Ok(NonNullList(Unwrap(itemParams.value)))
  {
    var capacity := if itemParams.Some? then |itemParams.value| else 0;
    r := FromSource(itemParams, capacity, "itemParams");
    if r.Ok? {
      UnwrapUnique(itemParams.value, r.value.items);
    }
  }

  /** The `IReadOnlyCollection<TItem>` constructor: the capacity is the collection's count. */
  method FromCollection<T>(collection: Option<seq<Option<T>>>) returns (r: Result<NonNullList<T>>)
    ensures collection.None? ==> r == Err(ArgumentNull("collection"))
    ensures collection.Some? && FirstNull(collection.value) < |collection.value| ==>
      r == Err(Argument("collection", NullItemMessage(FirstNull(collection.value))))
    ensures collection.Some? && FirstNull(collection.value) == |collection.value| ==>
      r == Ok(NonNullList(Unwrap(collection.value)))
  {
    var capacity := if collection.Some? then |collection.value| else 0;
    r := FromSource(collection, capacity, "collection");
    if r.Ok? {
      UnwrapUnique(collection.value, r.value.items);
    }
  }

  /** The `IEnumerable<TItem>` constructor with an explicit capacity (0 when omitted). */
  method FromEnumerable<T>(enumerable: Option<seq<Option<T>>>, capacity: int) returns (r: Result<NonNullList<T>>)
    ensures enumerable.None? ==> r == Err(ArgumentNull("enumerable"))
    ensures enumerable.Some? && capacity < 0 ==> r == Err(ArgumentOutOfRange("capacity"))
    ensures enumerable.Some? && capacity >= 0 && FirstNull(enumerable.value) < |enumerable.value| ==>
      r == Err(Argument("enumerable", NullItemMessage(FirstNull(enumerable.value))))
    ensures enumerable.Some? && capacity >= 0 && FirstNull(enumerable.value) == |enumerable.value| ==>
      r == Ok(NonNullList(Unwrap(enumerable.value)))
  {
    r := FromSource(enumerable, capacity, "enumerable");
    if r.Ok? {
      UnwrapUnique(enumerable.value, r.value.items);
    }
  }

  /** `Count`. */
  function Count<T>(l: NonNullList<T>): nat
  {
    |l.items|
  }

  /** The indexer: an index outside `[0, Count)` throws. */
  function Get<T>(l: NonNullList<T>, index: int): (r: Result<T>)
    ensures r.Err? <==> index < 0 || index >= Count(l)
    ensures r.Err? ==> r.failure == ArgumentOutOfRange("index")
    ensures r.Ok? ==> Some(r.value) == Wrap(l.items)[index]
  {
    if 0 <= index < |l.items| then Ok(l.items[index]) else Err(ArgumentOutOfRange("index"))
  }

  /** `Add(item)`: a null item throws and changes nothing; otherwise it is appended and the same
      list is returned. */
  function Add<T>(l: NonNullList<T>, item: Option<T>): (r: Result<NonNullList<T>>)
    ensures item.None? <==> r == Err(ArgumentNull("item"))
    ensures item.Some? ==> r.Ok? && Count(r.value) == Count(l) + 1
    ensures item.Some? ==> Wrap(r.value.items) == Wrap(l.items) + [item]
  {
    match item
    case None => Err(ArgumentNull("item"))
    case Some(x) => Ok(NonNullList(l.items + [x]))
  }

  // ---------------------------------------------------------------------------------------------
  // Properties.

  /** `FirstNull` is the only index with "all before are present, this one is null or the end". */
  lemma FirstNullIsFirst<T>(s: seq<Option<T>>, k: nat)
    requires k <= |s|
    requires forall j :: 0 <= j < k ==> s[j].Some?
    requires k < |s| ==> s[k].None?
    ensures FirstNull(s) == k
  {
  }

  /** Two item sequences whose nullable forms agree are equal. */
  lemma UnwrapUnique<T>(s: seq<Option<T>>, items: seq<T>)
    requires |items| == |s| && forall j :: 0 <= j < |s| ==> s[j] == Some(items[j])
    ensures Unwrap(s) == items
  {
  }

  /** A list's own items contain no null and copy back to themselves. */
  lemma WrapRoundTrip<T>(items: seq<T>)
    ensures FirstNull(Wrap(items)) == |items|
    ensures Unwrap(Wrap(items)) == items
  {
    FirstNullIsFirst(Wrap(items), |items|);
  }

  /** Different indices name different messages, so the message identifies the first null. */
  lemma NullItemMessageInjective(a: nat, b: nat)
    ensures NullItemMessage(a) == NullItemMessage(b) ==> a == b
  {
    if NullItemMessage(a) == NullItemMessage(b) {
      var p := "Item at index ";
      var q := " is null.";
      var x, y := Decimal.FromNat(a), Decimal.FromNat(b);
      assert NullItemMessage(a) == p + x + q;
      assert |x| == |y|;
      assert x == NullItemMessage(a)[|p|..|p| + |x|];
      assert y == NullItemMessage(b)[|p|..|p| + |y|];
      Decimal.FromNatInjective(a, b);
    }
  }

  /** After `Add(x)` the new last element is `x` and every earlier element is unchanged. */
  lemma AddThenGet<T>(l: NonNullList<T>, x: T, index: int)
    ensures Add(l, Some(x)).Ok?
    ensures Get(Add(l, Some(x)).value, Count(l)) == Ok(x)
    ensures 0 <= index < Count(l) ==> Get(Add(l, Some(x)).value, index) == Get(l, index)
  {
  }

  /** A source with a null anywhere, after a prefix of present items, reports the prefix's length. */
  lemma FirstNullAfterPrefix<T>(items: seq<T>, rest: seq<Option<T>>)
    ensures FirstNull(Wrap(items) + [None] + rest) == |items|
  {
    FirstNullIsFirst(Wrap(items) + [None] + rest, |items|);
  }
}
