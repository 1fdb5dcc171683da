/** `ReflectionUtils.MakeGetter`: turns a Unity serialized-property path such as
    `items.Array.data[2].name` into a getter over the object graph, segment by segment, and
    memoises it by type name and path. Reflection is modelled by a tree of type descriptions
    (`TypeInfo`) and a tree of object values (`Obj`). */
module PropertyPath {
  import opened Wrappers
  import opened Strings

  // ---------------------------------------------------------------- path normalisation

  /** `String.Replace(pat, rep)`: replaces every occurrence, scanning left to right, without
      overlaps. */
  function ReplaceAll(s: string, pat: string, rep: string): (r: string)
    requires |pat| > 0
    ensures |rep| <= |pat| ==> |r| <= |s|
    decreases |s|
  {
    if |s| < |pat| then s
    else if s[..|pat|] == pat then rep + ReplaceAll(s[|pat|..], pat, rep)
    else [s[0]] + ReplaceAll(s[1..], pat, rep)
  }

  const ArrayData := ".Array.data["

  /** The normalised path: Unity's `.Array.data[` element syntax becomes `[`. */
  function Normalise(path: string): string {
    ReplaceAll(path, ArrayData, "[")
  }

  predicate DotFree(s: string) { forall i :: 0 <= i < |s| ==> s[i] != '.' }

  /** A path without dots has nothing to normalise. */
  lemma {:induction false} NormaliseDotFree(s: string)
    requires DotFree(s)
    ensures Normalise(s) == s
    decreases |s|
  {
    if |s| >= |ArrayData| {
      assert s[..|ArrayData|][0] == s[0] != ArrayData[0];
      NormaliseDotFree(s[1..]);
      assert [s[0]] + s[1..] == s;
    }
  }

  /** After a dot-free field name, Unity's element syntax collapses to a bracket. */
  lemma {:induction false} NormaliseArrayElement(name: string, rest: string)
    requires DotFree(name)
    ensures Normalise(name + ArrayData + rest) == name + "[" + Normalise(rest)
    decreases |name|
  {
    var s := name + ArrayData + rest;
    if name == [] {
      assert s[..|ArrayData|] == ArrayData && s[|ArrayData|..] == rest;
    } else {
      assert s[..|ArrayData|][0] == name[0] != '.';
      assert s[1..] == name[1..] + ArrayData + rest;
      NormaliseArrayElement(name[1..], rest);
      assert [name[0]] + name[1..] == name;
    }
  }

  // ---------------------------------------------------------------- splitting on '.'

  /** `String.Split(sep)`: the pieces between separators, empty ones included. */
  function Split(s: string, sep: char): (parts: seq<string>)
    ensures |parts| > 0
    ensures forall k, i :: 0 <= k < |parts| && 0 <= i < |parts[k]| ==> parts[k][i] != sep
  {
    if s == [] then [""]
    else
      var rest := Split(s[1..], sep);
      if s[0] == sep then [""] + rest
      else [[s[0]] + rest[0]] + rest[1..]
  }

  function Join(parts: seq<string>, sep: char): string
    requires |parts| > 0
  {
    if |parts| == 1 then parts[0] else parts[0] + [sep] + Join(parts[1..], sep)
  }

  /** Splitting loses nothing: joining the pieces with the separator gives the text back. */
  lemma {:induction false} JoinSplit(s: string, sep: char)
    ensures Join(Split(s, sep), sep) == s
  {
    if s != [] {
      var rest := Split(s[1..], sep);
      JoinSplit(s[1..], sep);
      if s[0] == sep {
        assert Split(s, sep)[1..] == rest;
      } else {
        var parts := Split(s, sep);
        if |rest| == 1 {
          assert parts == [[s[0]] + rest[0]];
        } else {
          assert parts[1..] == rest[1..];
          assert Join(rest, sep) == rest[0] + [sep] + Join(rest[1..], sep);
        }
      }
    }
  }

  /** A text without the separator is one piece. */
  lemma {:induction false} SplitWithout(s: string, sep: char)
    requires forall i :: 0 <= i < |s| ==> s[i] != sep
    ensures Split(s, sep) == [s]
  {
    if s != [] {
      SplitWithout(s[1..], sep);
      assert [s[0]] + s[1..] == s;
    }
  }

  // ---------------------------------------------------------------- the index pattern

  /** A character `[^\s\[]` accepts. */
  predicate NameChar(c: char) { !IsWhiteSpace(c) && c != '[' }

  predicate IndexName(s: string) { |s| > 0 && forall i :: 0 <= i < |s| ==> NameChar(s[i]) }

  /** The length of the longest prefix of name characters (the greedy `[^\s\[]+`). */
  function NameRun(s: string): (n: nat)
    ensures n <= |s|
    ensures forall i :: 0 <= i < n ==> NameChar(s[i])
    ensures n < |s| ==> !NameChar(s[n])
  {
    if s == [] || !NameChar(s[0]) then 0 else 1 + NameRun(s[1..])
  }

  /** The length of the longest prefix of ASCII digits (the greedy `[0-9]+`). */
  function DigitRun(s: string): (n: nat)
    ensures n <= |s|
    ensures AllDigits(s[..n])
    ensures n < |s| ==> !IsDigit(s[n])
  {
    if s == [] || !IsDigit(s[0]) then 0 else
      assert s[..1 + DigitRun(s[1..])] == [s[0]] + s[1..][..DigitRun(s[1..])];
      1 + DigitRun(s[1..])
  }

  /** `^([^\s\[]+)\[([0-9]+)\]` on a segment: the two groups, or `None` when it does not match.
      Neither run can backtrack, since the character after each must be `[` or `]`. */
  function MatchIndex(seg: string): (r: Option<(string, string)>)
    ensures r.Some? ==> IndexName(r.value.0) && |r.value.1| > 0 && AllDigits(r.value.1)
  {
    var n := NameRun(seg);
    if n == 0 || n == |seg| || seg[n] != '[' then None
    else
      var d := DigitRun(seg[n + 1..]);
      if d == 0 || n + 1 + d == |seg| || seg[n + 1 + d] != ']' then None
      else
        assert seg[n + 1..][..d] == seg[n + 1..n + 1 + d];
        Some((seg[..n], seg[n + 1..n + 1 + d]))
  }

  /** What the pattern describes: a name, `[`, digits, `]`, then anything (only the start is
      anchored). */
  ghost predicate IndexShaped(seg: string, name: string, digits: string) {
    && IndexName(name) && |digits| > 0 && AllDigits(digits)
    && exists rest :: seg == name + "[" + digits + "]" + rest
  }

  lemma {:induction false} NameRunStops(name: string, t: string)
    requires forall i :: 0 <= i < |name| ==> NameChar(name[i])
    requires t != [] && t[0] == '['
    ensures NameRun(name + t) == |name|
  {
    if name != [] {
      assert (name + t)[1..] == name[1..] + t;
      NameRunStops(name[1..], t);
    }
  }

  lemma {:induction false} DigitRunStops(digits: string, t: string)
    requires AllDigits(digits)
    requires t != [] && t[0] == ']'
    ensures DigitRun(digits + t) == |digits|
  {
    if digits != [] {
      assert (digits + t)[1..] == digits[1..] + t;
      DigitRunStops(digits[1..], t);
    }
  }

  /** The match succeeds exactly on segments of the pattern's shape and yields its two groups. */
  lemma MatchIndexSound(seg: string)
    requires MatchIndex(seg).Some?
    ensures IndexShaped(seg, MatchIndex(seg).value.0, MatchIndex(seg).value.1)
  {
    var n := NameRun(seg);
    var d := DigitRun(seg[n + 1..]);
    var rest := seg[n + 1 + d + 1..];
    assert seg == seg[..n] + "[" + seg[n + 1..n + 1 + d] + "]" + rest;
  }

  /** Where the parts of a segment of the pattern's shape sit. */
  lemma SegmentParts(seg: string, name: string, digits: string, rest: string)
    requires seg == name + "[" + digits + "]" + rest
    ensures seg == name + seg[|name|..] && seg[|name|..] != [] && seg[|name|..][0] == '['
    ensures seg[|name| + 1..] == digits + ("]" + rest)
    ensures seg[..|name|] == name && seg[|name| + 1..|name| + 1 + |digits|] == digits
  {
    assert seg[|name|..] == "[" + digits + "]" + rest;
    assert seg[|name| + 1..] == seg[|name|..][1..];
  }

  lemma MatchIndexComplete(seg: string, name: string, digits: string, rest: string)
    requires IndexName(name) && |digits| > 0 && AllDigits(digits)
    requires seg == name + "[" + digits + "]" + rest
    ensures MatchIndex(seg) == Some((name, digits))
  {
    SegmentParts(seg, name, digits, rest);
    NameRunStops(name, seg[|name|..]);
    DigitRunStops(digits, "]" + rest);
    assert seg[|name| + 1..][|digits|] == ']';
  }

  // ---------------------------------------------------------------- types, objects, accessors

  /** A CLR type as reflection sees it: its full name, its instance fields (public or not) and
      its generic type arguments. */
  datatype TypeInfo = TypeInfo(fullName: string, fields: map<string, TypeInfo>, genericArguments: seq<TypeInfo>)

  /** An object graph value. */
  datatype Obj = Null | Instance(fields: map<string, Obj>) | ListObj(items: seq<Obj>) | Scalar(v: int)

  datatype ReflectionError =
    | NullTarget          // "Target object is null!"
    | NullReference       // `GetField` found no field
    | InvalidCast         // a delegate or a value of the wrong type
    | IndexOutOfRange     // a list type without generic arguments
    | IntOverflow         // an index too large for `int.Parse`
    | TargetMissing       // `FieldInfo.GetValue` on null or on an object without the field
    | ArgumentOutOfRange  // a list index past the end

  /** One per-segment getter: a field read, or a field read followed by a list element. */
  datatype Accessor = FieldAccess(name: string) | ElementAccess(name: string, index: int32)

  /** `f.GetValue(source)`: throws on null and on an object without the field. */
  function ReadField(name: string, source: Obj): Result<Obj, ReflectionError> {
    if source.Instance? && name in source.fields then Success(source.fields[name]) else Failure(TargetMissing)
  }

  /** `source => f.GetValue(source)`, and `obj => listGetter(obj)[index]`. */
  function ApplyAccessor(a: Accessor, source: Obj): (r: Result<Obj, ReflectionError>)
    ensures a.FieldAccess? ==> r == ReadField(a.name, source)
    ensures a.ElementAccess? ==> (r.Success? <==>
      && ReadField(a.name, source).Success? && ReadField(a.name, source).value.ListObj?
      && 0 <= a.index as int < |ReadField(a.name, source).value.items|)
    ensures a.ElementAccess? && r.Success? ==> r.value == ReadField(a.name, source).value.items[a.index]
    ensures a.ElementAccess? && ReadField(a.name, source).Failure? ==> r == ReadField(a.name, source)
  {
    match a
    case FieldAccess(name) => ReadField(name, source)
    case ElementAccess(name, index) =>
      match ReadField(name, source)
      case Failure(e) => Failure(e)
      case Success(list) =>
        if list.Null? then Failure(NullReference)
        else if !list.ListObj? then Failure(InvalidCast)
        else if 0 <= index as int < |list.items| then Success(list.items[index])
        else Failure(ArgumentOutOfRange)
  }

  /** A composed getter: the first segment's getter, or a getter followed by one more. */
  datatype Getter = Single(first: Accessor) | Then(previous: Getter, next: Accessor)

  /** `source => newGetter(oldGetter(source))`: an exception in the inner getter escapes. */
  function Apply(g: Getter, source: Obj): Result<Obj, ReflectionError> {
    match g
    case Single(a) => ApplyAccessor(a, source)
    case Then(previous, next) =>
      match Apply(previous, source)
      case Success(o) => ApplyAccessor(next, o)
      case Failure(e) => Failure(e)
  }

  /** Reads the segments' accessors in order, the first applied to the source. */
  function ApplyAll(accs: seq<Accessor>, source: Obj): Result<Obj, ReflectionError> {
    if accs == [] then Success(source)
    else
      match ApplyAccessor(accs[0], source)
      case Success(o) => ApplyAll(accs[1..], o)
      case Failure(e) => Failure(e)
  }

  /** The getter the loop of `MakeGetter` builds from a run of accessors. */
  function Compose(accs: seq<Accessor>): Getter
    requires |accs| > 0
  {
    if |accs| == 1 then Single(accs[0]) else Then(Compose(accs[..|accs| - 1]), accs[|accs| - 1])
  }

  lemma {:induction false} ApplyAllSnoc(accs: seq<Accessor>, a: Accessor, source: Obj)
    ensures ApplyAll(accs + [a], source) ==
      match ApplyAll(accs, source) case Success(o) => ApplyAccessor(a, o) case Failure(e) => Failure(e)
  {
    if accs != [] {
      assert (accs + [a])[1..] == accs[1..] + [a];
      match ApplyAccessor(accs[0], source)
      case Success(o) => ApplyAllSnoc(accs[1..], a, o);
      case Failure(e) =>
    }
  }

  /** The composed getter reads the path left to right: applying it is applying the segments'
      accessors in order, the first innermost, and the first exception escapes. */
  lemma {:induction false} ComposeReadsInOrder(accs: seq<Accessor>, source: Obj)
    requires |accs| > 0
    ensures Apply(Compose(accs), source) == ApplyAll(accs, source)
  {
    if |accs| > 1 {
      var init := accs[..|accs| - 1];
      ComposeReadsInOrder(init, source);
      ApplyAllSnoc(init, accs[|accs| - 1], source);
      assert init + [accs[|accs| - 1]] == accs;
    } else {
      assert accs[1..] == [];
    }
  }

  // ---------------------------------------------------------------- making the getters

  /** The private `MakeGetter(type, name, out newType)`: the field must exist on the type (else
      `f.FieldType` throws on null); the new type is the field's type. */
  function MakeFieldGetter(t: TypeInfo, name: string): (r: Result<(Accessor, TypeInfo), ReflectionError>)
    ensures r.Success? <==> name in t.fields
    ensures r.Failure? ==> r.error == NullReference
    ensures r.Success? ==> r.value == (FieldAccess(name), t.fields[name])
  {
    if name in t.fields then Success((FieldAccess(name), t.fields[name])) else Failure(NullReference)
  }

  /** The private `MakeGetter(type, name, index, out innerType)` as written: the field getter is a
      `Func<object, object>`, and casting it to `Func<object, IList>` always throws, since the
      result type of a delegate may only be converted towards a wider type. */
  function MakeIndexGetterAsWritten(t: TypeInfo, name: string, index: int32): (r: Result<(Accessor, TypeInfo), ReflectionError>)
    ensures r.Failure?
    ensures r.error == if name in t.fields then InvalidCast else NullReference
  {
    match MakeFieldGetter(t, name)
    case Failure(e) => Failure(e)
    case Success(_) => Failure(InvalidCast)
  }

  /** The same with the evidently intended cast on the field's value instead of the delegate:
      the element type is the list type's first generic argument. */
  function MakeIndexGetter(t: TypeInfo, name: string, index: int32): (r: Result<(Accessor, TypeInfo), ReflectionError>)
    ensures r.Success? <==> name in t.fields && |t.fields[name].genericArguments| > 0
    ensures r.Success? ==> r.value == (ElementAccess(name, index), t.fields[name].genericArguments[0])
    ensures r.Failure? ==> r.error == if name in t.fields then IndexOutOfRange else NullReference
  {
    match MakeFieldGetter(t, name)
    case Failure(e) => Failure(e)
    case Success((_, listType)) =>
      if |listType.genericArguments| == 0 then Failure(IndexOutOfRange)
      else Success((ElementAccess(name, index), listType.genericArguments[0]))
  }

  /** The field getter reads the named field of whatever object it is given. */
  lemma FieldGetterReadsField(t: TypeInfo, name: string, source: Obj)
    requires name in t.fields
    ensures ApplyAccessor(MakeFieldGetter(t, name).value.0, source) == ReadField(name, source)
  {
  }

  /** The corrected index getter reads element `index` of the list held by the field, and throws
      past the list's end. */
  lemma IndexGetterReadsElement(t: TypeInfo, name: string, index: int32, items: seq<Obj>)
    requires MakeIndexGetter(t, name, index).Success?
    ensures ApplyAccessor(MakeIndexGetter(t, name, index).value.0, Instance(map[name := ListObj(items)])) ==
      if 0 <= index as int < |items| then Success(items[index]) else Failure(ArgumentOutOfRange)
  {
  }

  /** The getter for one segment: `name[index]` when the pattern matches, a plain field otherwise. */
  function MakeSegmentGetter(t: TypeInfo, seg: string): Result<(Accessor, TypeInfo), ReflectionError> {
    match MatchIndex(seg)
    case None => MakeFieldGetter(t, seg)
    case Some((name, digits)) =>
      match ParseInt32Digits(digits)
      case Failure(_) => Failure(IntOverflow)
      case Success(index) => MakeIndexGetter(t, name, index)
  }

  /** The accessors for a run of segments, each resolved against the type the previous one
      reached; the first failure stops the walk. */
  function Plan(t: TypeInfo, segs: seq<string>): Result<seq<Accessor>, ReflectionError> {
    if segs == [] then Success([])
    else
      match MakeSegmentGetter(t, segs[0])
      case Failure(e) => Failure(e)
      case Success((a, t')) =>
        match Plan(t', segs[1..])
        case Failure(e) => Failure(e)
        case Success(rest) => Success([a] + rest)
  }

  lemma {:induction false} PlanLength(t: TypeInfo, segs: seq<string>)
    requires Plan(t, segs).Success?
    ensures |Plan(t, segs).value| == |segs|
  {
    if segs != [] {
      PlanLength(MakeSegmentGetter(t, segs[0]).value.1, segs[1..]);
    }
  }

  /** The plan with `acc` already resolved. */
  function Continue(acc: seq<Accessor>, t: TypeInfo, rest: seq<string>): Result<seq<Accessor>, ReflectionError> {
    match Plan(t, rest)
    case Failure(e) => Failure(e)
    case Success(r) => Success(acc + r)
  }

  lemma ContinueStep(acc: seq<Accessor>, t: TypeInfo, rest: seq<string>)
    requires rest != []
    ensures MakeSegmentGetter(t, rest[0]).Failure? ==>
      Continue(acc, t, rest) == Failure(MakeSegmentGetter(t, rest[0]).error)
    ensures MakeSegmentGetter(t, rest[0]).Success? ==>
      Continue(acc, t, rest) ==
        Continue(acc + [MakeSegmentGetter(t, rest[0]).value.0], MakeSegmentGetter(t, rest[0]).value.1, rest[1..])
  {
    match MakeSegmentGetter(t, rest[0])
    case Failure(e) =>
    case Success((a, t')) =>
      match Plan(t', rest[1..])
      case Failure(e) =>
      case Success(r) => assert acc + ([a] + r) == acc + [a] + r;
  }

  /** What `MakeGetter` yields for a normalised path on a given target type. */
  function BuildGetter(t: TypeInfo, path: string): Result<Getter, ReflectionError> {
    match Plan(t, Split(path, '.'))
    case Failure(e) => Failure(e)
    case Success(accs) => if |accs| == 0 then Failure(NullReference) else Success(Compose(accs))
  }

  /** The cache key `"{type.FullName}:{path}"`. */
  function Tag(t: TypeInfo, path: string): (r: string)
    ensures |r| == |t.fullName| + 1 + |path|
    ensures r[..|t.fullName|] == t.fullName && r[|t.fullName|] == ':' && r[|t.fullName| + 1..] == path
  {
    t.fullName + ":" + path
  }

  /** The position of the first `:`, or the length when there is none. */
  function FirstColon(s: string): (n: nat)
    ensures n <= |s|
  {
    if s == [] || s[0] == ':' then 0 else 1 + FirstColon(s[1..])
  }

  lemma {:induction false} FirstColonAfter(a: string, r: string)
    requires forall k :: 0 <= k < |a| ==> a[k] != ':'
    ensures FirstColon(a + ":" + r) == |a|
  {
    if a != [] {
      assert (a + ":" + r)[1..] == a[1..] + ":" + r;
      FirstColonAfter(a[1..], r);
    }
  }

  /** Type names hold no `:`, so the cache key identifies both the type and the path: one cache
      never confuses two types or two paths. */
  lemma TagInjective(t: TypeInfo, p: string, t': TypeInfo, p': string)
    requires forall k :: 0 <= k < |t.fullName| ==> t.fullName[k] != ':'
    requires forall k :: 0 <= k < |t'.fullName| ==> t'.fullName[k] != ':'
    requires Tag(t, p) == Tag(t', p')
    ensures t.fullName == t'.fullName && p == p'
  {
    FirstColonAfter(t.fullName, p);
    FirstColonAfter(t'.fullName, p');
    assert |t.fullName| == |t'.fullName|;
  }

  /** Unity's element syntax after a field name normalises to `name[i]`, a single segment. */
  lemma NormaliseElementPath(name: string, i: nat)
    requires DotFree(name)
    ensures Normalise(name + ArrayData + NatToDecimal(i) + "]") == name + "[" + NatToDecimal(i) + "]"
    ensures Split(name + "[" + NatToDecimal(i) + "]", '.') == [name + "[" + NatToDecimal(i) + "]"]
  {
    var digits := NatToDecimal(i);
    assert DotFree(digits + "]");
    NormaliseDotFree(digits + "]");
    assert name + ArrayData + digits + "]" == name + ArrayData + (digits + "]");
    NormaliseArrayElement(name, digits + "]");
    assert name + "[" + digits + "]" == name + "[" + (digits + "]");
    SplitWithout(name + "[" + digits + "]", '.');
  }

  /** The segment `name[i]` matches the index pattern with the index read back. */
  lemma ElementSegment(name: string, i: nat)
    requires IndexName(name) && i < 0x8000_0000
    ensures MatchIndex(name + "[" + NatToDecimal(i) + "]") == Some((name, NatToDecimal(i)))
    ensures ParseInt32Digits(NatToDecimal(i)) == Success(i as int32)
  {
    var digits := NatToDecimal(i);
    assert name + "[" + digits + "]" == name + "[" + digits + "]" + "";
    MatchIndexComplete(name + "[" + digits + "]", name, digits, "");
    DecimalRoundTrip(i);
  }

  /** An element of a list field, addressed Unity's way (`items.Array.data[i]`), reads element
      `i` of that list. */
  lemma ArrayElementPath(t: TypeInfo, name: string, i: nat, items: seq<Obj>)
    requires IndexName(name) && DotFree(name) && i < 0x8000_0000
    requires name in t.fields && |t.fields[name].genericArguments| > 0
    requires i < |items|
    ensures var path := Normalise(name + ArrayData + NatToDecimal(i) + "]");
      && path == name + "[" + NatToDecimal(i) + "]"
      && BuildGetter(t, path) == Success(Single(ElementAccess(name, i as int32)))
      && Apply(BuildGetter(t, path).value, Instance(map[name := ListObj(items)])) == Success(items[i])
  {
    NormaliseElementPath(name, i);
    ElementSegment(name, i);
    var seg := name + "[" + NatToDecimal(i) + "]";
    var arg := t.fields[name].genericArguments[0];
    assert MakeSegmentGetter(t, seg) == Success((ElementAccess(name, i as int32), arg));
    assert [seg][0] == seg && [seg][1..] == [];
    assert Plan(arg, []) == Success([]);
    var segs := [seg];
    assert segs[0] == seg && segs[1..] == [];
    assert Plan(t, segs) == Success([ElementAccess(name, i as int32)] + []);
    assert Split(seg, '.') == segs;
  }

  /** `MakeSegmentGetter` with the index getter as written. */
  function MakeSegmentGetterAsWritten(t: TypeInfo, seg: string): Result<(Accessor, TypeInfo), ReflectionError> {
    match MatchIndex(seg)
    case None => MakeFieldGetter(t, seg)
    case Some((name, digits)) =>
      match ParseInt32Digits(digits)
      case Failure(_) => Failure(IntOverflow)
      case Success(index) => MakeIndexGetterAsWritten(t, name, index)
  }

  /** As written, the same path can never be read: its indexed segment throws an
      `InvalidCastException` whenever the list field exists. */
  lemma ArrayElementPathAsWritten(t: TypeInfo, name: string, i: nat)
    requires IndexName(name) && i < 0x8000_0000
    requires name in t.fields
    ensures MakeSegmentGetterAsWritten(t, name + "[" + NatToDecimal(i) + "]") == Failure(InvalidCast)
  {
    ElementSegment(name, i);
  }

  /** The static `GetterCache`. */
  class GetterCache {
    var cache: map<string, Getter>

    constructor ()
      ensures cache == map[]
    {
      cache := map[];
    }

    /** `MakeGetter(SerializedProperty)` with the corrected index getter (`MakeSegmentGetter`):
        fails on a null target before touching the cache; returns a cached getter for the same
        type and normalised path without parsing; otherwise builds the getter segment by segment
        and caches it (an exception caches nothing). As written, every indexed segment throws
        instead (`MakeSegmentGetterAsWritten`), so no getter for a list element is ever built or
        cached. */
    method MakeGetter(target: Option<TypeInfo>, propertyPath: string) returns (r: Result<Getter, ReflectionError>)
      modifies this
      ensures target.None? ==> r == Failure(NullTarget) && cache == old(cache)
      ensures target.Some? && Tag(target.value, Normalise(propertyPath)) in old(cache) ==>
        r == Success(old(cache)[Tag(target.value, Normalise(propertyPath))]) && cache == old(cache)
      ensures target.Some? && Tag(target.value, Normalise(propertyPath)) !in old(cache) ==>
        && r == BuildGetter(target.value, Normalise(propertyPath))
        && (r.Success? ==> cache == old(cache)[Tag(target.value, Normalise(propertyPath)) := r.value])
        && (r.Failure? ==> cache == old(cache))
    {
      if target.None? {
        return Failure(NullTarget);
      }
      var path := Normalise(propertyPath);
      var t := target.value;
      var tag := Tag(t, path);
      var ty := t;
      if tag in cache {
        return Success(cache[tag]);
      }
      var segs := Split(path, '.');
      var getter: Option<Getter> := None;
      ghost var acc: seq<Accessor> := [];
      var i := 0;
      match Plan(t, segs) {
        case Failure(e) =>
        case Success(r0) => assert [] + r0 == r0;
      }
      while i < |segs|
        invariant 0 <= i <= |segs| && |acc| == i
        invariant Plan(t, segs) == Continue(acc, ty, segs[i..])
        invariant cache == old(cache)
        invariant i == 0 ==> getter.None?
        invariant i > 0 ==> getter == Some(Compose(acc))
      {
        var made := MakeSegmentGetter(ty, segs[i]);
        ContinueStep(acc, ty, segs[i..]);
        if made.Failure? {
          assert Plan(t, segs) == Failure(made.error);
          assert BuildGetter(t, path) == Failure(made.error);
          return Failure(made.error);
        }
        var (newGetter, newType) := made.value;
        assert segs[i..][1..] == segs[i + 1..];
        if getter.None? {
          getter := Some(Single(newGetter));
        } else {
          getter := Some(Then(getter.value, newGetter));
        }
        acc := acc + [newGetter];
        assert acc[..|acc| - 1] == acc[..i];
        ty := newType;
        i := i + 1;
      }
      assert segs[i..] == [];
      assert Plan(ty, []) == Success([]);
      assert acc + [] == acc;
      r := Success(getter.value);
      assert r == BuildGetter(t, path);
      cache := cache[tag := getter.value];
    }
  }
}
