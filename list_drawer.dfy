/** `ProtoListDrawer`: the reorderable list drawn for a repeated field: a cache of element
    heights padded by `GetElementHeight`, element labels, and the drawing context installed for
    the duration of `Draw`. Rectangles and the drawing of each element are not modelled; an
    element's drawn height is an input. */
module ListDrawer {
  import opened Wrappers
  import opened Strings
  import opened Descriptors
  import opened DrawerContext
  import ProtoDraw

  // ---------------------------------------------------------------- the Sizes cache

  /** How many heights one `GetElementHeight` call appends: its loop compares the counter with
      `count - Sizes.Count`, which shrinks as it appends, so it closes half the gap, rounded up. */
  function PaddedCount(size: nat, count: nat): (r: nat)
    // after `r` rounds the loop condition `r < count - (size + r)` fails, and it held for `r - 1`
    ensures !(r < count - (size + r))
    ensures r > 0 ==> r - 1 < count - (size + r - 1)
  {
    if count > size then (count - size + 1) / 2 else 0
  }

  /** The size of the cache after `k` calls. */
  function SizeAfterCalls(size: nat, count: nat, k: nat): nat {
    if k == 0 then size else
      var s := SizeAfterCalls(size, count, k - 1);
      s + PaddedCount(s, count)
  }

  /** A call never overshoots the list and, while the cache is short, grows it by at least one. */
  lemma PadOnceBounds(size: nat, count: nat)
    ensures size < count ==> size + 1 <= size + PaddedCount(size, count) <= count
    ensures size >= count ==> PaddedCount(size, count) == 0
  {
  }

  /** The list asks for the heights of elements 0, 1, 2, ... in turn; each call's index is then
      in range, because after `k` calls the cache covers at least `k` elements (or the list). */
  lemma {:induction false} AscendingCallsInRange(size: nat, count: nat, k: nat)
    ensures SizeAfterCalls(size, count, k) >= if size + k <= count then size + k else count
    ensures size <= count ==> SizeAfterCalls(size, count, k) <= count
  {
    if k > 0 {
      AscendingCallsInRange(size, count, k - 1);
      PadOnceBounds(SizeAfterCalls(size, count, k - 1), count);
    }
  }

  // ---------------------------------------------------------------- labels

  /** What `Accessor.GetValue(item) as string` yields for a field of a message element. */
  datatype ElementValue = StringValue(s: string) | OtherValue
  datatype ElementField = ElementField(name: string, value: ElementValue)

  /** An element of the list: a message (its fields in declaration order), or a value of another
      field type. `RepeatedField<T>` holds no null elements. */
  datatype ListItem = MessageItem(fields: seq<ElementField>) | ScalarItem

  predicate IsNameField(f: ElementField) { EqualsIgnoreCase(f.name, "name") }

  /** `FirstOrDefault(it => it.Name.Equals("name", OrdinalIgnoreCase))`. */
  function FirstNamed(fields: seq<ElementField>): (r: Option<nat>)
    ensures r.Some? ==> r.value < |fields| && IsNameField(fields[r.value])
    ensures r.Some? ==> forall j :: 0 <= j < r.value ==> !IsNameField(fields[j])
    ensures r.None? ==> forall j :: 0 <= j < |fields| ==> !IsNameField(fields[j])
  {
    if fields == [] then None
    else if IsNameField(fields[0]) then Some(0)
    else match FirstNamed(fields[1..])
      case None => None
      case Some(k) => Some(k + 1)
  }

  /** The element's display name: the string value of its first field called `name`, if any. */
  function NameValue(item: ListItem): (r: Option<string>)
    ensures r.Some? ==> item.MessageItem? && FirstNamed(item.fields).Some?
    ensures r.Some? ==> item.fields[FirstNamed(item.fields).value].value == StringValue(r.value)
    ensures item.MessageItem? && FirstNamed(item.fields).Some? && item.fields[FirstNamed(item.fields).value].value.StringValue? ==>
      r == Some(item.fields[FirstNamed(item.fields).value].value.s)
  {
    match item
    case MessageItem(fields) =>
      (match FirstNamed(fields)
       case Some(k) => if fields[k].value.StringValue? then Some(fields[k].value.s) else None
       case None => None)
    case _ => None
  }

  /** `$"{field.Name}[{index}]"`, followed by `": {name}"` when the element is a message whose
      name is neither null nor white space. */
  function ElementLabel(fieldName: string, fieldType: FieldType, index: int32, item: ListItem): (r: string)
    ensures var base := fieldName + "[" + IntToDecimal(index as int) + "]";
      |base| <= |r| && r[..|base|] == base
  {
    var base := fieldName + "[" + IntToDecimal(index as int) + "]";
    var name := if fieldType == Message then NameValue(item) else None;
    if !IsNullOrWhiteSpace(name) then base + ": " + name.value else base
  }

  /** Only a message element with a non-blank name gets the suffix. */
  lemma LabelSuffix(fieldName: string, fieldType: FieldType, index: int32, item: ListItem)
    ensures var base := fieldName + "[" + IntToDecimal(index as int) + "]";
      && (fieldType != Message ==> ElementLabel(fieldName, fieldType, index, item) == base)
      && (fieldType == Message && !IsNullOrWhiteSpace(NameValue(item)) ==>
            ElementLabel(fieldName, fieldType, index, item) == base + ": " + NameValue(item).value)
      && (IsNullOrWhiteSpace(NameValue(item)) ==> ElementLabel(fieldName, fieldType, index, item) == base)
  {
  }

  lemma DecimalHasNoBracket(i: int)
    ensures forall k :: 0 <= k < |IntToDecimal(i)| ==> IntToDecimal(i)[k] != ']'
  {
    var s := IntToDecimal(i);
    if i < 0 {
      forall k | 0 < k < |s| ensures s[k] != ']' {
        assert s[k] == s[1..][k - 1];
      }
    }
  }

  lemma IntDecimalInjective(i: int, j: int)
    requires IntToDecimal(i) == IntToDecimal(j)
    ensures i == j
  {
    var s := IntToDecimal(i);
    if i < 0 && j < 0 {
      assert NatToDecimal(-i) == s[1..] == NatToDecimal(-j);
      DecimalInjective(-i, -j);
    } else if i >= 0 && j >= 0 {
      DecimalInjective(i, j);
    }
  }

  /** The position of the first `]`, or the length when there is none. */
  function FirstBracket(s: string): (n: nat)
    ensures n <= |s|
  {
    if s == [] || s[0] == ']' then 0 else 1 + FirstBracket(s[1..])
  }

  lemma {:induction false} FirstBracketAfter(a: string, r: string)
    requires forall k :: 0 <= k < |a| ==> a[k] != ']'
    ensures FirstBracket(a + "]" + r) == |a|
  {
    if a != [] {
      assert (a + "]" + r)[1..] == a[1..] + "]" + r;
      FirstBracketAfter(a[1..], r);
    }
  }

  /** After the field name and `[`, a label holds the index, `]` and the rest. */
  lemma LabelShape(fieldName: string, fieldType: FieldType, i: int32, item: ListItem)
    ensures var l, d := ElementLabel(fieldName, fieldType, i, item), IntToDecimal(i as int);
      && |fieldName| + 1 + |d| + 1 <= |l|
      && l[|fieldName| + 1..] == d + "]" + l[|fieldName| + 1 + |d| + 1..]
  {
    var l, d := ElementLabel(fieldName, fieldType, i, item), IntToDecimal(i as int);
    var base := fieldName + "[" + d + "]";
    assert l == base + l[|base|..];
    assert l[|fieldName| + 1..] == d + "]" + l[|base|..];
  }

  /** Two elements of one list never share a label, whatever their names. */
  lemma DistinctIndicesDistinctLabels(fieldName: string, fieldType: FieldType, i: int32, j: int32, a: ListItem, b: ListItem)
    ensures ElementLabel(fieldName, fieldType, i, a) == ElementLabel(fieldName, fieldType, j, b) ==> i == j
  {
    var la, lb := ElementLabel(fieldName, fieldType, i, a), ElementLabel(fieldName, fieldType, j, b);
    var di, dj := IntToDecimal(i as int), IntToDecimal(j as int);
    var p := |fieldName| + 1;
    LabelShape(fieldName, fieldType, i, a);
    LabelShape(fieldName, fieldType, j, b);
    var ra, rb := la[p + |di| + 1..], lb[p + |dj| + 1..];
    DecimalHasNoBracket(i as int);
    DecimalHasNoBracket(j as int);
    FirstBracketAfter(di, ra);
    FirstBracketAfter(dj, rb);
    if la == lb {
      assert |di| == |dj|;
      assert di == la[p..][..|di|] == dj;
      IntDecimalInjective(i as int, j as int);
    }
  }

  // ---------------------------------------------------------------- the drawer

  /** `NullReferenceException` (no context), `ArgumentOutOfRangeException` (an index past a
      list's end) and `InvalidCastException` (the widget's unboxing). */
  datatype DrawError = NullContext | IndexOutOfRange | InvalidCast

  /** Whether drawing an element reads it from the list: a message element is cast before the
      label is built, and every widget but the bytes and group placeholders calls the getter. */
  predicate ReadsElement(fieldType: FieldType) { fieldType != Bytes && fieldType != Group }

  /** The heights cached by drawing `elements` in order. A draw outside the cache throws before it
      caches anything, so it leaves the heights as they are. */
  function AfterDraws(sizes: seq<int>, elements: seq<(int32, int)>): (r: seq<int>)
    ensures |r| == |sizes|
  {
    if elements == [] then sizes
    else
      var last := elements[|elements| - 1];
      var before := AfterDraws(sizes, elements[..|elements| - 1]);
      if 0 <= last.0 as int < |before| then before[last.0 as int := last.1] else before
  }

  lemma AfterDrawsSnoc(sizes: seq<int>, elements: seq<(int32, int)>, k: nat)
    requires k < |elements| && 0 <= elements[k].0 as int < |sizes|
    ensures AfterDraws(sizes, elements[..k + 1]) == AfterDraws(sizes, elements[..k])[elements[k].0 as int := elements[k].1]
  {
    assert elements[..k + 1][..k] == elements[..k];
  }

  /** An index no element draw mentions keeps its height. */
  lemma {:induction false} UndrawnKeepsHeight(sizes: seq<int>, elements: seq<(int32, int)>, i: nat)
    requires forall k :: 0 <= k < |elements| ==> 0 <= elements[k].0 as int < |sizes|
    requires i < |sizes| && forall k :: 0 <= k < |elements| ==> elements[k].0 as int != i
    ensures AfterDraws(sizes, elements)[i] == sizes[i]
  {
    if elements != [] {
      var init := elements[..|elements| - 1];
      assert forall k :: 0 <= k < |init| ==> init[k] == elements[k];
      UndrawnKeepsHeight(sizes, init, i);
    }
  }

  /** The last draw of an index decides its cached height. */
  lemma {:induction false} LastDrawWins(sizes: seq<int>, elements: seq<(int32, int)>, k: nat)
    requires forall l :: 0 <= l < |elements| ==> 0 <= elements[l].0 as int < |sizes|
    requires k < |elements| && forall l :: k < l < |elements| ==> elements[l].0 != elements[k].0
    ensures AfterDraws(sizes, elements)[elements[k].0] == elements[k].1
  {
    var n := |elements| - 1;
    if k < n {
      var init := elements[..n];
      assert forall l :: 0 <= l < n ==> init[l] == elements[l];
      LastDrawWins(sizes, init, k);
    }
  }

  class ProtoListDrawer {
    const field: FieldDescriptor
    const lineHeight: int
    const items: seq<ListItem>
    var Sizes: seq<int>
    var context: Option<ProtoDrawerContext<ProtoListDrawer>>

    constructor (field: FieldDescriptor, items: seq<ListItem>, lineHeight: int)
      ensures this.field == field && this.items == items
      ensures this.lineHeight == lineHeight && Sizes == [] && context == None
    {
      this.field := field;
      this.items := items;
      this.lineHeight := lineHeight;
      Sizes := [];
      context := None;
    }

    /** `GetElementHeight(index)`: pads the cache with single-line heights (see `PaddedCount`),
        without touching existing entries, then returns `Sizes[index]`, which throws when the
        index is out of range. */
    method GetElementHeight(index: int32) returns (r: Result<int, DrawError>)
      modifies this`Sizes
      ensures |Sizes| == |old(Sizes)| + PaddedCount(|old(Sizes)|, |items|)
      ensures Sizes[..|old(Sizes)|] == old(Sizes)
      ensures forall k :: |old(Sizes)| <= k < |Sizes| ==> Sizes[k] == lineHeight
      ensures 0 <= index as int < |Sizes| ==> r == Success(Sizes[index])
      ensures !(0 <= index as int < |Sizes|) ==> r == Failure(IndexOutOfRange)
    {
      var i := 0;
      while i < |items| - |Sizes|
        invariant |Sizes| == |old(Sizes)| + i
        invariant i <= PaddedCount(|old(Sizes)|, |items|)
        invariant Sizes[..|old(Sizes)|] == old(Sizes)
        invariant forall k :: |old(Sizes)| <= k < |Sizes| ==> Sizes[k] == lineHeight
      {
        Sizes := Sizes + [lineHeight];
        i := i + 1;
      }
      if 0 <= index as int < |Sizes| {
        r := Success(Sizes[index]);
      } else {
        r := Failure(IndexOutOfRange);
      }
    }

    /** The exception drawing element `index` throws with a cache of `n` heights, in the order
        the draw meets them: reading the element past the list's end, the widget's cast (which
        fails exactly for the types `WidthMismatch` names, see `WidgetCastFailsExactly`), then
        the cache past its end. */
    function DrawFailure(index: int32, n: int): Option<DrawError>
    {
      if ReadsElement(field.fieldType) && !(0 <= index as int < |items|) then Some(IndexOutOfRange)
      else if ProtoDraw.WidthMismatch(field.fieldType) then Some(InvalidCast)
      else if !(0 <= index as int < n) then Some(IndexOutOfRange)
      else None
    }

    predicate Drawable(index: int32, n: int)
    {
      DrawFailure(index, n).None?
    }

    /** What drawing a drawable element returns: its label, and whether its height differs from the
        cached one. */
    function Drawn(index: int32, newSize: int, sizes: seq<int>): (string, bool)
      requires Drawable(index, |sizes|)
    {
      (ElementLabel(field.name, field.fieldType, index, if field.fieldType == Message then items[index] else ScalarItem),
       newSize != sizes[index])
    }

    /** `DrawListElement(index)`: inside `context.Enter(index)`, builds the label, draws the
        element (`newSize` is the height its drawer returns), raises the change flag iff the
        height differs from the cached one, then caches it. Reading past the end of the list or
        of the cache throws, and so does the widget's cast; the section is disposed either way. */
    method DrawListElement(index: int32, newSize: int) returns (r: Result<(string, bool), DrawError>)
      requires context.Some? ==> context.value.Valid()
      modifies this`Sizes, if context.Some? then {context.value} else {}
      ensures context == old(context)
      ensures context.None? ==> r == Failure(NullContext) && Sizes == old(Sizes)
      ensures context.Some? ==> context.value.Valid() && context.value.builder == old(context.value.builder)
      ensures |Sizes| == |old(Sizes)|
      ensures context.Some? && Drawable(index, |old(Sizes)|) ==>
        r == Success(Drawn(index, newSize, old(Sizes))) && Sizes == old(Sizes)[index as int := newSize]
      ensures context.Some? && !Drawable(index, |old(Sizes)|) ==>
        r == Failure(DrawFailure(index, |old(Sizes)|).value) && Sizes == old(Sizes)
    {
      if context.None? {
        return Failure(NullContext);
      }
      var ctx := context.value;
      ghost var path := ctx.builder;
      var section := ctx.EnterElement(index);
      EnterThenRemove(path, Element(index));
      var item := ScalarItem;
      if field.fieldType == Message {
        if !(0 <= index as int < |items|) {
          var _ := Dispose(section);
          return Failure(IndexOutOfRange);
        }
        item := items[index];
      }
      var text := ElementLabel(field.name, field.fieldType, index, item);
      if ReadsElement(field.fieldType) && !(0 <= index as int < |items|) {
        var _ := Dispose(section);
        return Failure(IndexOutOfRange);
      }
      if ProtoDraw.WidthMismatch(field.fieldType) {
        var _ := Dispose(section);
        return Failure(InvalidCast);
      }
      if !(0 <= index as int < |Sizes|) {
        var _ := Dispose(section);
        return Failure(IndexOutOfRange);
      }
      var raised := newSize != Sizes[index];
      Sizes := Sizes[index as int := newSize];
      var _ := Dispose(section);
      r := Success((text, raised));
    }

    /** `Draw(rect, ctx)`: installs the context, lets the list draw its elements (`elements`
        holds the index and drawn height of each element the list draws, in order), then clears
        the context. There is no `finally`: an exception from an element leaves the context
        installed. */
    method Draw(ctx: ProtoDrawerContext<ProtoListDrawer>, elements: seq<(int32, int)>) returns (outcome: Outcome<DrawError>)
      requires ctx.Valid()
      modifies this`Sizes, this`context, ctx
      ensures ctx.Valid() && ctx.builder == old(ctx.builder)
      ensures |Sizes| == |old(Sizes)|
      ensures outcome == Pass <==> forall k :: 0 <= k < |elements| ==> Drawable(elements[k].0, |old(Sizes)|)
      ensures outcome == Pass ==> context == None && Sizes == AfterDraws(old(Sizes), elements)
      ensures outcome.Fail? ==> context == Some(ctx)
      ensures outcome.Fail? ==>
        exists k :: 0 <= k < |elements| && FailedAt(elements, k, outcome.error, old(Sizes), Sizes)
    {
      context := Some(ctx);
      outcome := DoList(elements);
      if outcome == Pass {
        context := None;
      }
    }

    /** `ReorderableList.DoList` with this drawer's callbacks: draws the elements in order. It
        succeeds exactly when every element is drawable, and then caches the heights `AfterDraws`
        gives; otherwise the first element that is not drawable throws, after the heights of the
        elements before it are cached. */
    method DoList(elements: seq<(int32, int)>) returns (outcome: Outcome<DrawError>)
      requires context.Some? && context.value.Valid()
      modifies this`Sizes, context.value
      ensures context == old(context) && context.value.Valid() && context.value.builder == old(context.value.builder)
      ensures |Sizes| == |old(Sizes)|
      ensures outcome == Pass <==> forall k :: 0 <= k < |elements| ==> Drawable(elements[k].0, |old(Sizes)|)
      ensures outcome == Pass ==> Sizes == AfterDraws(old(Sizes), elements)
      ensures outcome.Fail? ==>
        exists k :: 0 <= k < |elements| && FailedAt(elements, k, outcome.error, old(Sizes), Sizes)
    {
      ghost var s0 := Sizes;
      var k := 0;
      while k < |elements|
        invariant 0 <= k <= |elements|
        invariant context == old(context) && context.value.Valid() && context.value.builder == old(context.value.builder)
        invariant |Sizes| == |s0|
        invariant forall l :: 0 <= l < k ==> Drawable(elements[l].0, |s0|)
        invariant Sizes == AfterDraws(s0, elements[..k])
      {
        var step := DoListStep(elements, k, s0);
        if step.Fail? {
          assert FailedAt(elements, k, step.error, s0, Sizes);
          return step;
        }
        k := k + 1;
      }
      assert elements[..k] == elements;
      outcome := Pass;
    }

    /** One element of `DoList`: element `k` is drawn over the heights `s0` cached for the
        elements before it. */
    method DoListStep(elements: seq<(int32, int)>, k: nat, ghost s0: seq<int>) returns (outcome: Outcome<DrawError>)
      requires context.Some? && context.value.Valid()
      requires k < |elements| && |Sizes| == |s0| && Sizes == AfterDraws(s0, elements[..k])
      modifies this`Sizes, context.value
      ensures context == old(context) && context.value.Valid() && context.value.builder == old(context.value.builder)
      ensures outcome.Fail? ==> Some(outcome.error) == DrawFailure(elements[k].0, |s0|) && Sizes == old(Sizes)
      ensures outcome.Pass? ==> Drawable(elements[k].0, |s0|) && Sizes == AfterDraws(s0, elements[..k + 1])
    {
      var drawn := DrawListElement(elements[k].0, elements[k].1);
      if drawn.Failure? {
        return Fail(drawn.error);
      }
      AfterDrawsSnoc(s0, elements, k);
      outcome := Pass;
    }

    /** Element `k` is the first of `elements` that cannot be drawn with the cache `before`: it
        throws `e`, and the cache is `after`, holding the heights of the elements before it. */
    predicate FailedAt(elements: seq<(int32, int)>, k: nat, e: DrawError, before: seq<int>, after: seq<int>)
      requires k < |elements|
    {
      && (forall l :: 0 <= l < k ==> Drawable(elements[l].0, |before|))
      && Some(e) == DrawFailure(elements[k].0, |before|)
      && after == AfterDraws(before, elements[..k])
    }
  }
}
