/** `CustomProtoDrawer`: user drawers that wrap the default field drawer, selected per field by
    optional filters and chained in the registry's priority order. */
module CustomDrawers {
  import opened Wrappers
  import opened Strings
  import opened Descriptors

  /** A registered drawer: its identity, its filters (`None` = the property returns null) and its
      priority (a float in the source, only compared). */
  datatype CustomProtoDrawer = CustomProtoDrawer(
    id: string,
    classFilter: Option<string>,
    serializedFieldNameFilter: Option<string>,
    protoFieldNameFilter: Option<string>,
    fieldTypeFilter: Option<FieldType>,
    isRepeatedFilter: Option<bool>,
    priority: int)

  /** A `DrawFieldDelegate`: the default drawer, or a custom drawer's `DrawField` given the
      delegate it wraps as its `baseDrawer`. */
  datatype DrawDelegate = DrawFieldBase | Wrapped(drawer: CustomProtoDrawer, inner: DrawDelegate)

  /** A non-null proto-field-name filter accepts the field's `Name` or its `JsonName`, ignoring case. */
  predicate ProtoNameAccepted(filter: Option<string>, field: FieldDescriptor) {
    filter.None? || EqualsIgnoreCase(filter.value, field.name) || EqualsIgnoreCase(filter.value, field.jsonName)
  }

  /** The name filter compares without case: it accepts exactly the fields one of whose names
      has the filter's lower-case form. */
  lemma NameFilterIgnoresCase(filter: string, field: FieldDescriptor)
    ensures ProtoNameAccepted(Some(filter), field) <==>
      LowerAll(filter) == LowerAll(field.name) || LowerAll(filter) == LowerAll(field.jsonName)
  {
    EqualsIgnoreCaseLower(filter, field.name);
    EqualsIgnoreCaseLower(filter, field.jsonName);
  }

  /** The filter test of `GetDelegate`: every non-null filter must agree with the field. */
  predicate Matches(d: CustomProtoDrawer, containingClass: string, fieldName: Option<string>, field: FieldDescriptor) {
    && (d.classFilter.None? || d.classFilter.value == containingClass)
    && (d.fieldTypeFilter.None? || d.fieldTypeFilter.value == field.fieldType)
    && (d.isRepeatedFilter.None? || d.isRepeatedFilter.value == field.isRepeated)
    && (d.serializedFieldNameFilter.None? || Some(d.serializedFieldNameFilter.value) == fieldName)
    && ProtoNameAccepted(d.protoFieldNameFilter, field)
  }

  /** A drawer is skipped exactly when one of its non-null filters disagrees with the field, the
      name filter comparing the lower-case forms of the filter and of both field names. */
  lemma SkippedIffSomeFilterDiffers(d: CustomProtoDrawer, containingClass: string, fieldName: Option<string>, field: FieldDescriptor)
    ensures !Matches(d, containingClass, fieldName, field) <==>
      || (d.classFilter.Some? && d.classFilter.value != containingClass)
      || (d.fieldTypeFilter.Some? && d.fieldTypeFilter.value != field.fieldType)
      || (d.isRepeatedFilter.Some? && d.isRepeatedFilter.value != field.isRepeated)
      || (d.serializedFieldNameFilter.Some? && Some(d.serializedFieldNameFilter.value) != fieldName)
      || (d.protoFieldNameFilter.Some? && LowerAll(d.protoFieldNameFilter.value) != LowerAll(field.name)
                                       && LowerAll(d.protoFieldNameFilter.value) != LowerAll(field.jsonName))
  {
    if d.protoFieldNameFilter.Some? {
      NameFilterIgnoresCase(d.protoFieldNameFilter.value, field);
    }
  }

  /** A drawer with no filters applies to every field. */
  lemma UnfilteredMatchesEverything(d: CustomProtoDrawer, containingClass: string, fieldName: Option<string>, field: FieldDescriptor)
    requires d.classFilter.None? && d.serializedFieldNameFilter.None? && d.protoFieldNameFilter.None?
    requires d.fieldTypeFilter.None? && d.isRepeatedFilter.None?
    ensures Matches(d, containingClass, fieldName, field)
  {
  }

  /** The drawers that apply to a field, in list order. */
  function Matching(ds: seq<CustomProtoDrawer>, containingClass: string, fieldName: Option<string>, field: FieldDescriptor)
    : (ms: seq<CustomProtoDrawer>)
    ensures |ms| <= |ds|
    ensures forall m :: m in ms ==> m in ds && Matches(m, containingClass, fieldName, field)
  {
    if ds == [] then []
    else
      var init := Matching(ds[..|ds| - 1], containingClass, fieldName, field);
      if Matches(ds[|ds| - 1], containingClass, fieldName, field) then init + [ds[|ds| - 1]] else init
  }

  /** Every drawer of the list that applies to the field is kept. */
  lemma {:induction false} MatchingComplete(ds: seq<CustomProtoDrawer>, containingClass: string, fieldName: Option<string>, field: FieldDescriptor, d: CustomProtoDrawer)
    requires d in ds && Matches(d, containingClass, fieldName, field)
    ensures d in Matching(ds, containingClass, fieldName, field)
  {
    if ds[|ds| - 1] != d {
      assert d in ds[..|ds| - 1];
      MatchingComplete(ds[..|ds| - 1], containingClass, fieldName, field, d);
    }
  }

  /** Wraps the delegate in each drawer in turn, so the last drawer is outermost. */
  function WrapAll(base: DrawDelegate, ms: seq<CustomProtoDrawer>): DrawDelegate {
    if ms == [] then base else Wrapped(ms[|ms| - 1], WrapAll(base, ms[..|ms| - 1]))
  }

  /** The drawers of a delegate, innermost first, and the delegate at its core. */
  function Layers(d: DrawDelegate): seq<CustomProtoDrawer> {
    match d
    case DrawFieldBase => []
    case Wrapped(drawer, inner) => Layers(inner) + [drawer]
  }

  function Core(d: DrawDelegate): DrawDelegate {
    match d
    case DrawFieldBase => DrawFieldBase
    case Wrapped(_, inner) => Core(inner)
  }

  /** Wrapping a default drawer in a list of drawers yields exactly those layers, in list order. */
  lemma {:induction false} WrapAllLayers(ms: seq<CustomProtoDrawer>)
    ensures Layers(WrapAll(DrawFieldBase, ms)) == ms
    ensures Core(WrapAll(DrawFieldBase, ms)) == DrawFieldBase
  {
    if ms != [] {
      WrapAllLayers(ms[..|ms| - 1]);
      assert ms[..|ms| - 1] + [ms[|ms| - 1]] == ms;
    }
  }

  /** The delegate `GetDelegate` builds for the default drawer has as layers exactly the matching
      drawers in list order, the last match outermost; with no match it is the default drawer. */
  lemma ChainOfDefaultDrawer(ds: seq<CustomProtoDrawer>, containingClass: string, fieldName: Option<string>, field: FieldDescriptor)
    ensures var d := WrapAll(DrawFieldBase, Matching(ds, containingClass, fieldName, field));
      && Layers(d) == Matching(ds, containingClass, fieldName, field)
      && (Matching(ds, containingClass, fieldName, field) == [] ==> d == DrawFieldBase)
      && (d.Wrapped? ==> d.drawer == Matching(ds, containingClass, fieldName, field)[|Layers(d)| - 1])
  {
    WrapAllLayers(Matching(ds, containingClass, fieldName, field));
  }

  predicate SortedByPriority(s: seq<CustomProtoDrawer>) {
    forall i, j :: 0 <= i < j < |s| ==> s[i].priority <= s[j].priority
  }

  /** Inserts after every element of no greater priority. */
  function InsertByPriority(s: seq<CustomProtoDrawer>, d: CustomProtoDrawer): (r: seq<CustomProtoDrawer>)
    ensures |r| == |s| + 1
  {
    if s == [] || d.priority < s[0].priority then [d] + s
    else [s[0]] + InsertByPriority(s[1..], d)
  }

  /** `r` is `s` with `d` placed at position `k`, after drawers of no greater priority and before
      one of greater priority. */
  predicate InsertedAt(s: seq<CustomProtoDrawer>, d: CustomProtoDrawer, k: nat, r: seq<CustomProtoDrawer>) {
    && k <= |s| && r == s[..k] + [d] + s[k..]
    && (forall i :: 0 <= i < k ==> s[i].priority <= d.priority)
    && (k < |s| ==> d.priority < s[k].priority)
  }

  /** Inserting puts the new drawer right after the leading drawers of no greater priority. */
  lemma {:induction false} InsertPosition(s: seq<CustomProtoDrawer>, d: CustomProtoDrawer)
    ensures exists k :: InsertedAt(s, d, k, InsertByPriority(s, d))
  {
    if s == [] || d.priority < s[0].priority {
      assert InsertedAt(s, d, 0, InsertByPriority(s, d));
    } else {
      var t := s[1..];
      InsertPosition(t, d);
      var r := InsertByPriority(t, d);
      var k: nat :| InsertedAt(t, d, k, r);
      assert InsertByPriority(s, d) == [s[0]] + r;
      assert s[..k + 1] == [s[0]] + t[..k] && s[k + 1..] == t[k..];
      assert [s[0]] + r == s[..k + 1] + [d] + s[k + 1..] by {
        assert r == t[..k] + [d] + t[k..];
      }
      forall i | 0 < i < k + 1 ensures s[i].priority <= d.priority {
        assert s[i] == t[i - 1];
      }
      assert k + 1 < |s| ==> s[k + 1] == t[k];
      assert InsertedAt(s, d, k + 1, InsertByPriority(s, d));
    }
  }

  /** Inserting adds exactly the new drawer. */
  lemma {:induction false} InsertPermutes(s: seq<CustomProtoDrawer>, d: CustomProtoDrawer)
    ensures multiset(InsertByPriority(s, d)) == multiset(s) + multiset{d}
  {
    if s != [] && d.priority >= s[0].priority {
      InsertPermutes(s[1..], d);
      assert s == [s[0]] + s[1..];
    }
  }

  lemma ConsSorted(h: CustomProtoDrawer, t: seq<CustomProtoDrawer>)
    requires SortedByPriority(t)
    requires forall x :: x in t ==> h.priority <= x.priority
    ensures SortedByPriority([h] + t)
  {
    var r := [h] + t;
    forall i, j | 0 <= i < j < |r| ensures r[i].priority <= r[j].priority {
      assert r[j] == t[j - 1];
      if i == 0 {
        assert t[j - 1] in t;
      } else {
        assert r[i] == t[i - 1];
      }
    }
  }

  lemma InsertMembers(s: seq<CustomProtoDrawer>, d: CustomProtoDrawer)
    ensures forall x :: x in InsertByPriority(s, d) ==> x in s || x == d
  {
    var r := InsertByPriority(s, d);
    InsertPermutes(s, d);
    forall x | x in r ensures x in s || x == d {
      assert x in multiset(r);
    }
  }

  lemma {:induction false} InsertKeepsSorted(s: seq<CustomProtoDrawer>, d: CustomProtoDrawer)
    requires SortedByPriority(s)
    ensures SortedByPriority(InsertByPriority(s, d))
  {
    if s == [] {
      ConsSorted(d, s);
    } else if d.priority < s[0].priority {
      SortedHeadLeast(s);
      ConsSorted(d, s);
    } else {
      SortedTail(s);
      InsertKeepsSorted(s[1..], d);
      var t := InsertByPriority(s[1..], d);
      InsertMembers(s[1..], d);
      forall x | x in t ensures s[0].priority <= x.priority {
        if x != d {
          assert x in s[1..];
          assert x in s;
        }
      }
      ConsSorted(s[0], t);
    }
  }

  /** `OrderBy(it => it.Priority)`: a stable sort by ascending priority. */
  function OrderByPriority(s: seq<CustomProtoDrawer>): (r: seq<CustomProtoDrawer>)
    ensures |r| == |s|
  {
    if s == [] then []
    else InsertByPriority(OrderByPriority(s[..|s| - 1]), s[|s| - 1])
  }

  /** The initial ordering neither loses nor adds a drawer. */
  lemma {:induction false} OrderByPriorityPermutes(s: seq<CustomProtoDrawer>)
    ensures multiset(OrderByPriority(s)) == multiset(s)
  {
    if s != [] {
      OrderByPriorityPermutes(s[..|s| - 1]);
      InsertPermutes(OrderByPriority(s[..|s| - 1]), s[|s| - 1]);
      assert s == s[..|s| - 1] + [s[|s| - 1]];
    }
  }

  /** The drawers of a given priority, in order. */
  function WithPriority(s: seq<CustomProtoDrawer>, p: int): seq<CustomProtoDrawer> {
    if s == [] then []
    else (if s[0].priority == p then [s[0]] else []) + WithPriority(s[1..], p)
  }

  lemma WithPriorityCons(h: CustomProtoDrawer, t: seq<CustomProtoDrawer>, p: int)
    ensures WithPriority([h] + t, p) == (if h.priority == p then [h] else []) + WithPriority(t, p)
  {
    assert ([h] + t)[1..] == t;
  }

  lemma {:induction false} WithPriorityAppend(s: seq<CustomProtoDrawer>, t: seq<CustomProtoDrawer>, p: int)
    ensures WithPriority(s + t, p) == WithPriority(s, p) + WithPriority(t, p)
  {
    if s == [] {
      assert s + t == t;
    } else {
      assert s + t == [s[0]] + (s[1..] + t);
      assert s == [s[0]] + s[1..];
      WithPriorityCons(s[0], s[1..] + t, p);
      WithPriorityCons(s[0], s[1..], p);
      WithPriorityAppend(s[1..], t, p);
    }
  }

  lemma {:induction false} WithPriorityNone(s: seq<CustomProtoDrawer>, p: int)
    requires forall x :: x in s ==> x.priority > p
    ensures WithPriority(s, p) == []
  {
    if s != [] {
      assert s[0] in s;
      assert forall x :: x in s[1..] ==> x in s;
      WithPriorityNone(s[1..], p);
    }
  }

  lemma SortedTail(s: seq<CustomProtoDrawer>)
    requires s != [] && SortedByPriority(s)
    ensures SortedByPriority(s[1..])
  {
    forall i, j | 0 <= i < j < |s[1..]| ensures s[1..][i].priority <= s[1..][j].priority {
      assert s[1..][i] == s[i + 1] && s[1..][j] == s[j + 1];
    }
  }

  lemma SortedHeadLeast(s: seq<CustomProtoDrawer>)
    requires s != [] && SortedByPriority(s)
    ensures forall x :: x in s ==> s[0].priority <= x.priority
  {
    forall x | x in s ensures s[0].priority <= x.priority {
      var k :| 0 <= k < |s| && s[k] == x;
    }
  }

  /** Inserting adds the new drawer after every drawer of the same priority. */
  lemma {:induction false} InsertStable(s: seq<CustomProtoDrawer>, d: CustomProtoDrawer, p: int)
    requires SortedByPriority(s)
    ensures WithPriority(InsertByPriority(s, d), p) == WithPriority(s, p) + (if d.priority == p then [d] else [])
  {
    var mine := if d.priority == p then [d] else [];
    if s == [] {
      assert InsertByPriority(s, d) == [d] + [];
      WithPriorityCons(d, [], p);
    } else if d.priority < s[0].priority {
      assert InsertByPriority(s, d) == [d] + s;
      WithPriorityCons(d, s, p);
      if d.priority == p {
        SortedHeadLeast(s);
        WithPriorityNone(s, p);
      }
    } else {
      var t := InsertByPriority(s[1..], d);
      var head := if s[0].priority == p then [s[0]] else [];
      assert InsertByPriority(s, d) == [s[0]] + t;
      calc {
        WithPriority([s[0]] + t, p);
      == { WithPriorityCons(s[0], t, p); }
        head + WithPriority(t, p);
      == { SortedTail(s); InsertStable(s[1..], d, p); }
        head + (WithPriority(s[1..], p) + mine);
      == 
        (head + WithPriority(s[1..], p)) + mine;
      == { WithPriorityCons(s[0], s[1..], p); assert [s[0]] + s[1..] == s; }
        WithPriority(s, p) + mine;
      }
    }
  }

  /** The initial registry is sorted by ascending priority. */
  lemma {:induction false} OrderByPrioritySorted(s: seq<CustomProtoDrawer>)
    ensures SortedByPriority(OrderByPriority(s))
  {
    if s != [] {
      var init, last := s[..|s| - 1], s[|s| - 1];
      OrderByPrioritySorted(init);
      assert OrderByPriority(s) == InsertByPriority(OrderByPriority(init), last);
      InsertKeepsSorted(OrderByPriority(init), last);
    }
  }

  /** The initial registry keeps the discovery order among drawers of equal priority. */
  lemma {:induction false} OrderByPriorityStable(s: seq<CustomProtoDrawer>, p: int)
    ensures WithPriority(OrderByPriority(s), p) == WithPriority(s, p)
  {
    if s != [] {
      var init, last := s[..|s| - 1], s[|s| - 1];
      var sorted := OrderByPriority(init);
      var tail := if last.priority == p then [last] else [];
      assert OrderByPriority(s) == InsertByPriority(sorted, last);
      calc {
        WithPriority(OrderByPriority(s), p);
      == { OrderByPrioritySorted(init); InsertStable(sorted, last, p); }
        WithPriority(sorted, p) + tail;
      == { OrderByPriorityStable(init, p); }
        WithPriority(init, p) + tail;
      == { WithPriorityCons(last, [], p); assert [last] + [] == [last]; }
        WithPriority(init, p) + WithPriority([last], p);
      == { WithPriorityAppend(init, [last], p); assert init + [last] == s; }
        WithPriority(s, p);
      }
    }
  }

  /** The static `Drawers` list. */
  class DrawerRegistry {
    var Drawers: seq<CustomProtoDrawer>

    ghost predicate Valid()
      reads this
    {
      SortedByPriority(Drawers)
    }

    /** The static constructor: the discovered drawers, ordered by priority. */
    constructor (discovered: seq<CustomProtoDrawer>)
      ensures Valid() && Drawers == OrderByPriority(discovered)
      ensures multiset(Drawers) == multiset(discovered)
    {
      Drawers := OrderByPriority(discovered);
      OrderByPrioritySorted(discovered);
      OrderByPriorityPermutes(discovered);
    }

    /** `GetDelegate`: wraps `baseDrawer` in each drawer of the registry that applies to the
        field, in registry order. */
    method GetDelegate(baseDrawer: DrawDelegate, containingClass: string, fieldName: Option<string>, descriptor: FieldDescriptor)
      returns (d: DrawDelegate)
      ensures d == WrapAll(baseDrawer, Matching(Drawers, containingClass, fieldName, descriptor))
    {
      d := baseDrawer;
      var i := 0;
      while i < |Drawers|
        invariant 0 <= i <= |Drawers|
        invariant d == WrapAll(baseDrawer, Matching(Drawers[..i], containingClass, fieldName, descriptor))
      {
        var drawer := Drawers[i];
        assert Drawers[..i + 1][..i] == Drawers[..i];
        if Matches(drawer, containingClass, fieldName, descriptor) {
          var oldDelegate := d;
          d := Wrapped(drawer, oldDelegate);
        }
        i := i + 1;
      }
      assert Drawers[..i] == Drawers;
    }

    /** `Register`: adds the drawer and re-sorts by priority (`List.Sort` is not stable, so only
        the order of priorities is promised). */
    method Register(drawer: CustomProtoDrawer)
      requires Valid()
      modifies this
      ensures Valid()
      ensures |Drawers| == |old(Drawers)| + 1
      ensures multiset(Drawers) == multiset(old(Drawers)) + multiset{drawer}
    {
      InsertKeepsSorted(Drawers, drawer);
      InsertPermutes(Drawers, drawer);
      Drawers := InsertByPriority(Drawers, drawer);
    }
  }
}
