/** LwM2M object paths and their printed form, such as /3/0/1. */
module ObjectPaths {
  import opened Wrappers
  import opened MachineInts
  import opened Splitting

  datatype ObjectPath = ObjectPath(objectId: Uint16, instanceId: Option<Uint16>,
                                   resourceId: Option<Uint16>, resourceInstanceId: Option<Uint16>)
  {
    predicate IsObject() { instanceId.None? }
    predicate IsInstance() { instanceId.Some? && resourceId.None? }
    predicate IsResource() { resourceId.Some? && resourceInstanceId.None? }
    predicate IsResourceInstance() { resourceInstanceId.Some? }

    /** No component is given without the one above it. */
    predicate Gapless() {
      (resourceId.Some? ==> instanceId.Some?) && (resourceInstanceId.Some? ==> resourceId.Some?)
    }
  }

  function InstancePath(oid: Uint16, iid: Uint16): ObjectPath {
    ObjectPath(oid, Some(iid), None, None)
  }

  function ResourcePath(oid: Uint16, iid: Uint16, rid: Uint16): ObjectPath {
    ObjectPath(oid, Some(iid), Some(rid), None)
  }

  // --- Decimal numbers -----------------------------------------------------

  predicate IsDigit(c: char) {
    '0' <= c <= '9'
  }

  function DigitValue(c: char): nat
    requires IsDigit(c)
  {
    (c as int) - ('0' as int)
  }

  function Digit(d: nat): (c: char)
    requires d < 10
    ensures IsDigit(c) && DigitValue(c) == d
  {
    ((d + ('0' as int)) as char)
  }

  predicate IsNumeral(s: string) {
    forall i :: 0 <= i < |s| ==> IsDigit(s[i])
  }

  function DecimalValue(s: string): nat
    requires IsNumeral(s)
  {
    if s == "" then 0 else DecimalValue(s[..|s| - 1]) * 10 + DigitValue(s[|s| - 1])
  }

  function Decimal(n: nat): (s: string)
    ensures s != "" && IsNumeral(s)
  {
    if n < 10 then [Digit(n)] else Decimal(n / 10) + [Digit(n % 10)]
  }

  lemma {:induction false} DecimalRoundTrip(n: nat)
    ensures DecimalValue(Decimal(n)) == n
  {
    var s := Decimal(n);
    if n >= 10 {
      DecimalRoundTrip(n / 10);
      assert s[..|s| - 1] == Decimal(n / 10);
    } else {
      assert s[..0] == "";
    }
  }

  /** No numeral of a value is shorter than its printed form. */
  lemma {:induction false} DecimalShortest(s: string)
    requires s != "" && IsNumeral(s)
    ensures |Decimal(DecimalValue(s))| <= |s|
  {
    var front := s[..|s| - 1];
    if front != "" {
      DecimalShortest(front);
      assert DecimalValue(s) / 10 == DecimalValue(front);
    }
  }

  // --- One segment ---------------------------------------------------------

  function DigitRun(s: string): (n: nat)
    ensures n <= |s| && IsNumeral(s[..n])
    ensures n < |s| ==> !IsDigit(s[n])
  {
    if s == "" || !IsDigit(s[0]) then 0 else 1 + DigitRun(s[1..])
  }

  /** std::from_chars for a 16-bit unsigned number: the value, unless there are no digits or it
      does not fit, and where the scan stopped. */
  function FromChars(s: string): (Option<Uint16>, nat) {
    var n := DigitRun(s);
    if n == 0 then (None, 0)
    else if DecimalValue(s[..n]) >= TWO_TO_16 then (None, n)
    else (Some(DecimalValue(s[..n])), n)
  }

  function ParseSegment(s: string): Option<Uint16> {
    var (value, ptr) := FromChars(s);
    if value.None? || ptr != |s| then None else value
  }

  /** A segment is accepted exactly when it is all digits and its value fits 16 bits. */
  lemma SegmentAccepted(s: string)
    ensures ParseSegment(s).Some? <==> s != "" && IsNumeral(s) && DecimalValue(s) < TWO_TO_16
    ensures ParseSegment(s).Some? ==> ParseSegment(s).value == DecimalValue(s)
  {
    assert s[..|s|] == s;
  }

  // --- Whole paths ---------------------------------------------------------

  const MAX_COMPONENTS: nat := 4

  function OfComponents(v: seq<Uint16>): ObjectPath
    requires 1 <= |v| <= MAX_COMPONENTS
  {
    ObjectPath(v[0],
               if |v| > 1 then Some(v[1]) else None,
               if |v| > 2 then Some(v[2]) else None,
               if |v| > 3 then Some(v[3]) else None)
  }

  /** The components that get printed: those above the first gap. */
  function Components(p: ObjectPath): (v: seq<Uint16>)
    ensures 1 <= |v| <= MAX_COMPONENTS
    ensures OfComponents(v) == p <==> p.Gapless()
  {
    if p.instanceId.None? then [p.objectId]
    else if p.resourceId.None? then [p.objectId, p.instanceId.value]
    else if p.resourceInstanceId.None? then [p.objectId, p.instanceId.value, p.resourceId.value]
    else [p.objectId, p.instanceId.value, p.resourceId.value, p.resourceInstanceId.value]
  }

  function Numerals(v: seq<Uint16>): (parts: seq<string>)
    ensures |parts| == |v|
    ensures forall i :: 0 <= i < |v| ==> parts[i] == Decimal(v[i])
  {
    if v == [] then [] else [Decimal(v[0])] + Numerals(v[1..])
  }

  function Printed(p: ObjectPath): string {
    "/" + Join(Numerals(Components(p)), '/')
  }

  method ToString(p: ObjectPath) returns (oss: string)
    ensures oss == Printed(p)
  {
    oss := "/" + Decimal(p.objectId);
    ghost var parts := [Decimal(p.objectId)];
    if p.instanceId.Some? {
      oss := WriteComponent(oss, parts, p.instanceId.value);
      parts := parts + [Decimal(p.instanceId.value)];
      if p.resourceId.Some? {
        oss := WriteComponent(oss, parts, p.resourceId.value);
        parts := parts + [Decimal(p.resourceId.value)];
        if p.resourceInstanceId.Some? {
          oss := WriteComponent(oss, parts, p.resourceInstanceId.value);
          parts := parts + [Decimal(p.resourceInstanceId.value)];
        }
      }
    }
    assert parts == Numerals(Components(p));
  }

  /** `oss << "/" << value` */
  method WriteComponent(oss: string, ghost parts: seq<string>, value: Uint16) returns (out: string)
    requires parts != [] && oss == "/" + Join(parts, '/')
    ensures out == "/" + Join(parts + [Decimal(value)], '/')
  {
    out := oss + "/" + Decimal(value);
    JoinSnoc(parts, Decimal(value), '/');
  }

  function Shortest(a: nat, b: nat): nat {
    if a < b then a else b
  }

  /** The values of a list of segments, if each is acceptable. */
  function SegmentValues(parts: seq<string>): (r: Option<seq<Uint16>>)
    ensures r.Some? ==> |r.value| == |parts|
  {
    if parts == [] then Some([])
    else match ParseSegment(parts[0])
      case None => None
      case Some(v) =>
        match SegmentValues(parts[1..])
        case None => None
        case Some(rest) => Some([v] + rest)
  }

  /** A path is a slash followed by slash-separated segments, of which the first four count. */
  function Parse(path: string): Option<ObjectPath> {
    if path == "" || path[0] != '/' then None
    else if |path| > 1 && path[|path| - 1] == '/' then None
    else
      var parts := SplitOn(path[1..], '/');
      match SegmentValues(parts[..Shortest(|parts|, MAX_COMPONENTS)])
      case None => None
      case Some(v) => Some(OfComponents(v))
  }

  lemma {:induction false} SegmentValuesAppend(done: seq<string>, s: string)
    requires SegmentValues(done).Some?
    ensures SegmentValues(done + [s])
         == match ParseSegment(s) case None => None case Some(v) => Some(SegmentValues(done).value + [v])
  {
    if done == [] {
      assert done + [s] == [s];
      assert [s][1..] == [];
      if ParseSegment(s).Some? {
        assert [ParseSegment(s).value] + [] == [] + [ParseSegment(s).value];
      }
    } else {
      assert (done + [s])[1..] == done[1..] + [s];
      SegmentValuesAppend(done[1..], s);
      if ParseSegment(s).Some? {
        var v, rest, last := ParseSegment(done[0]).value, SegmentValues(done[1..]).value, ParseSegment(s).value;
        assert [v] + (rest + [last]) == ([v] + rest) + [last];
      }
    }
  }

  lemma {:induction false} SegmentValuesPrefix(parts: seq<string>, k: nat)
    requires k <= |parts| && SegmentValues(parts[..k]).None?
    ensures SegmentValues(parts).None?
  {
    if k > 0 && ParseSegment(parts[0]).Some? {
      assert parts[..k][1..] == parts[1..][..k - 1];
      SegmentValuesPrefix(parts[1..], k - 1);
    }
  }

  predicate Plausible(path: string) {
    |path| > 1 && path[0] == '/' && path[|path| - 1] != '/'
  }

  /** Where the scan stands: the segments before `component` are read, the rest starts at `pos`. */
  ghost predicate Scanning(path: string, parts: seq<string>, pos: nat, component: nat, values: seq<Uint16>) {
    && component <= |parts|
    && SegmentValues(parts[..component]) == Some(values)
    && (pos <= |path| ==> pos < |path| && parts[component..] == SplitOn(path[pos..], '/'))
    && (pos > |path| ==> component == |parts|)
  }

  /** `path.find('/', pos)`, or the end of the path. */
  function SegmentEnd(path: string, pos: nat): (end: nat)
    requires pos <= |path|
    ensures pos <= end <= |path|
  {
    pos + IndexOf(path[pos..], '/')
  }

  lemma ScanHead(path: string, parts: seq<string>, pos: nat, component: nat)
    requires Plausible(path) && pos < |path| && component <= |parts|
    requires parts[component..] == SplitOn(path[pos..], '/')
    ensures component < |parts|
    ensures var end := SegmentEnd(path, pos);
      && parts[component] == path[pos..end]
      && (end < |path| ==> end + 1 < |path| && parts[component + 1..] == SplitOn(path[end + 1..], '/'))
      && (end == |path| ==> component + 1 == |parts|)
  {
    hide SplitOn;
    var end := SegmentEnd(path, pos);
    var here, text := parts[component..], path[pos..];
    assert here[0] == parts[component] && here[1..] == parts[component + 1..];
    SplitHead(text, '/');
    assert text[..end - pos] == path[pos..end];
    if end < |path| {
      assert path[end] == text[end - pos];
      assert text[end - pos + 1..] == path[end + 1..];
    }
  }

  lemma ScanStep(path: string, parts: seq<string>, pos: nat, component: nat, values: seq<Uint16>)
    requires Plausible(path) && Scanning(path, parts, pos, component, values) && pos < |path|
    ensures component < |parts|
    ensures var end := SegmentEnd(path, pos);
      match ParseSegment(path[pos..end])
      case Some(v) => Scanning(path, parts, end + 1, component + 1, values + [v])
      case None => SegmentValues(parts[..component + 1]).None?
  {
    ScanHead(path, parts, pos, component);
    assert parts[..component + 1] == parts[..component] + [parts[component]];
    SegmentValuesAppend(parts[..component], parts[component]);
  }

  lemma ScanStart(path: string)
    requires Plausible(path)
    ensures Scanning(path, SplitOn(path[1..], '/'), 1, 0, [])
  {
    var parts := SplitOn(path[1..], '/');
    assert parts[0..] == parts && parts[..0] == [];
  }

  lemma ScanDone(path: string, parts: seq<string>, pos: nat, component: nat, values: seq<Uint16>)
    requires Plausible(path) && parts == SplitOn(path[1..], '/')
    requires Scanning(path, parts, pos, component, values) && component == |values|
    requires component <= MAX_COMPONENTS && (pos >= |path| || component == MAX_COMPONENTS)
    ensures component > 0 && Parse(path) == Some(SoFar(values))
  {
    assert component == Shortest(|parts|, MAX_COMPONENTS);
  }

  lemma Rejected(path: string, parts: seq<string>, component: nat)
    requires Plausible(path) && parts == SplitOn(path[1..], '/')
    requires component < MAX_COMPONENTS && component < |parts|
    requires SegmentValues(parts[..component + 1]).None?
    ensures Parse(path) == None
  {
    var k := Shortest(|parts|, MAX_COMPONENTS);
    assert parts[..k][..component + 1] == parts[..component + 1];
    SegmentValuesPrefix(parts[..k], component + 1);
  }

  /** The path under construction after reading some components. */
  function SoFar(values: seq<Uint16>): ObjectPath
    requires |values| <= MAX_COMPONENTS
  {
    if values == [] then ObjectPath(0, None, None, None) else OfComponents(values)
  }

  /** The switch that stores one component. */
  function SetComponent(p: ObjectPath, component: nat, value: Uint16): ObjectPath {
    match component
    case 0 => p.(objectId := value)
    case 1 => p.(instanceId := Some(value))
    case 2 => p.(resourceId := Some(value))
    case _ => p.(resourceInstanceId := Some(value))
  }

  lemma NextComponent(values: seq<Uint16>, value: Uint16)
    requires |values| < MAX_COMPONENTS
    ensures SetComponent(SoFar(values), |values|, value) == SoFar(values + [value])
  {
  }

  method ParsePath(path: string) returns (r: Option<ObjectPath>)
    ensures r == Parse(path)
  {
    if path == "" || path[0] != '/' {
      return None;
    }
    if |path| > 1 && path[|path| - 1] == '/' {
      return None;
    }
    if |path| == 1 {
      // No segment at all: the source's loop does not run and its component count stays zero.
      SlashAlone(path);
      return None;
    }
    ghost var parts := SplitOn(path[1..], '/');
    ghost var values: seq<Uint16> := [];
    var result := ObjectPath(0, None, None, None);
    var pos, component := 1, 0;
    ScanStart(path);
    while pos < |path| && component < 4
      invariant component == |values| <= 4
      invariant Scanning(path, parts, pos, component, values)
      invariant result == SoFar(values)
      decreases |path| + 1 - pos
    {
      ScanStep(path, parts, pos, component, values);
      var end := SegmentEnd(path, pos);
      var parsed := ParseSegment(path[pos..end]);
      if parsed.None? {
        Rejected(path, parts, component);
        return None;
      }
      NextComponent(values, parsed.value);
      result := SetComponent(result, component, parsed.value);
      values := values + [parsed.value];
      component := component + 1;
      pos := end + 1;
    }
    ScanDone(path, parts, pos, component, values);
    r := Some(result);
  }

  lemma SlashAlone(path: string)
    requires path == "/"
    ensures Parse(path) == None
  {
    assert path[1..] == "";
    assert SplitOn("", '/') == [""];
    assert [""][..1] == [""];
  }

  // --- Laws ----------------------------------------------------------------

  lemma {:induction false} NumeralSegments(v: seq<Uint16>)
    ensures SegmentValues(Numerals(v)) == Some(v)
  {
    if v != [] {
      SegmentAccepted(Decimal(v[0]));
      DecimalRoundTrip(v[0]);
      assert Numerals(v)[1..] == Numerals(v[1..]);
      NumeralSegments(v[1..]);
      assert v == [v[0]] + v[1..];
    }
  }

  lemma NumeralsFree(v: seq<Uint16>)
    ensures AllFree(Numerals(v), '/')
  {
    forall i | 0 <= i < |v|
      ensures '/' !in Numerals(v)[i]
    {
      assert IsNumeral(Decimal(v[i]));
    }
  }

  lemma {:induction false} JoinEnd(parts: seq<string>, c: char)
    requires parts != [] && parts[|parts| - 1] != ""
    ensures var s, last := Join(parts, c), parts[|parts| - 1];
            s != "" && s[|s| - 1] == last[|last| - 1]
  {
    if |parts| > 1 {
      JoinEnd(parts[1..], c);
    }
  }

  /** Printing then parsing gives the components above the first gap, so it gives the path
      back exactly when the path has no gap. */
  lemma PrintParse(p: ObjectPath)
    ensures Parse(Printed(p)) == Some(OfComponents(Components(p)))
    ensures Parse(Printed(p)) == Some(p) <==> p.Gapless()
  {
    var v := Components(p);
    var parts := Numerals(v);
    var s := Printed(p);
    NumeralsFree(v);
    SplitOfJoin(parts, '/');
    JoinEnd(parts, '/');
    assert parts[|parts| - 1] == Decimal(v[|v| - 1]);
    assert s[|s| - 1] != '/';
    assert s[1..] == Join(parts, '/');
    assert parts[..|parts|] == parts;
    NumeralSegments(v);
  }

  lemma {:induction false} NumeralsShort(parts: seq<string>)
    requires SegmentValues(parts).Some? && parts != []
    ensures |Join(Numerals(SegmentValues(parts).value), '/')| <= |Join(parts, '/')|
  {
    var v := SegmentValues(parts).value;
    SegmentAccepted(parts[0]);
    DecimalShortest(parts[0]);
    if |parts| > 1 {
      assert Numerals(v)[1..] == Numerals(v[1..]);
      assert v[1..] == SegmentValues(parts[1..]).value;
      NumeralsShort(parts[1..]);
    }
  }

  lemma {:induction false} JoinPrefixShort(parts: seq<string>, k: nat)
    requires 1 <= k <= |parts|
    ensures |Join(parts[..k], '/')| <= |Join(parts, '/')|
  {
    if k > 1 {
      assert parts[..k][1..] == parts[1..][..k - 1];
      JoinPrefixShort(parts[1..], k - 1);
    }
  }

  /** Every accepted string prints, through its path, to one that is no longer and parses to
      the same path. */
  lemma ParsePrint(s: string)
    requires Parse(s).Some?
    ensures Parse(s).value.Gapless()
    ensures |Printed(Parse(s).value)| <= |s|
    ensures Parse(Printed(Parse(s).value)) == Parse(s)
  {
    var p := Parse(s).value;
    var parts := SplitOn(s[1..], '/');
    var k := Shortest(|parts|, MAX_COMPONENTS);
    var v := SegmentValues(parts[..k]).value;
    ComponentsOf(v);
    NumeralsShort(parts[..k]);
    JoinPrefixShort(parts, k);
    JoinOfSplit(s[1..], '/');
    PrintParse(p);
  }

  /** What the parser accepts, as a grammar over the segments. */
  ghost predicate Spells(s: string, parts: seq<string>, p: ObjectPath) {
    && parts != [] && AllFree(parts, '/')
    && s == "/" + Join(parts, '/')
    && parts[|parts| - 1] != ""
    && var v := Components(p);
       && p.Gapless() && |v| == Shortest(|parts|, MAX_COMPONENTS)
       && forall i :: 0 <= i < |v| ==>
            parts[i] != "" && IsNumeral(parts[i]) && DecimalValue(parts[i]) == v[i]
  }

  lemma ParseGrammar(s: string, p: ObjectPath)
    ensures Parse(s) == Some(p) <==> exists parts :: Spells(s, parts, p)
  {
    if Parse(s) == Some(p) {
      ParseSpells(s, p);
    }
    if parts :| Spells(s, parts, p) {
      SpellsParse(s, parts, p);
    }
  }

  lemma ParseSpells(s: string, p: ObjectPath)
    requires Parse(s) == Some(p)
    ensures Spells(s, SplitOn(s[1..], '/'), p)
  {
    var parts := SplitOn(s[1..], '/');
    var k := Shortest(|parts|, MAX_COMPONENTS);
    SplitFree(s[1..], '/');
    JoinOfSplit(s[1..], '/');
    assert s == "/" + s[1..];
    LastPiece(s, parts);
    ComponentsOf(SegmentValues(parts[..k]).value);
    ReadSegments(parts, k);
  }

  lemma ReadSegments(parts: seq<string>, k: nat)
    requires k <= |parts| && SegmentValues(parts[..k]).Some?
    ensures forall i :: 0 <= i < k ==>
      && parts[i] != "" && IsNumeral(parts[i])
      && DecimalValue(parts[i]) == SegmentValues(parts[..k]).value[i]
  {
    SegmentValuesEach(parts[..k]);
    forall i | 0 <= i < k
      ensures parts[i] != "" && IsNumeral(parts[i]) && DecimalValue(parts[i]) == SegmentValues(parts[..k]).value[i]
    {
      assert parts[i] == parts[..k][i];
    }
  }

  lemma ComponentsOf(v: seq<Uint16>)
    requires 1 <= |v| <= MAX_COMPONENTS
    ensures Components(OfComponents(v)) == v && OfComponents(v).Gapless()
  {
  }

  lemma SpellsParse(s: string, parts: seq<string>, p: ObjectPath)
    requires Spells(s, parts, p)
    ensures Parse(s) == Some(p)
  {
    var last := parts[|parts| - 1];
    SplitOfJoin(parts, '/');
    JoinEnd(parts, '/');
    assert s[1..] == Join(parts, '/');
    assert last[|last| - 1] in last;
    SegmentValuesOf(parts[..|Components(p)|], Components(p));
  }

  lemma LastPiece(s: string, parts: seq<string>)
    requires Parse(s).Some? && parts == SplitOn(s[1..], '/')
    ensures parts[|parts| - 1] != ""
  {
    JoinOfSplit(s[1..], '/');
    var k := Shortest(|parts|, MAX_COMPONENTS);
    if parts[|parts| - 1] == "" {
      if |parts| == 1 {
        SegmentValuesEach(parts[..k]);
      } else {
        EmptyEnd(parts, '/');
      }
    }
  }

  lemma {:induction false} EmptyEnd(parts: seq<string>, c: char)
    requires |parts| > 1 && parts[|parts| - 1] == ""
    ensures var s := Join(parts, c); s != "" && s[|s| - 1] == c
  {
    if |parts| > 2 {
      EmptyEnd(parts[1..], c);
    }
  }

  lemma {:induction false} SegmentValuesEach(parts: seq<string>)
    requires SegmentValues(parts).Some?
    ensures forall i :: 0 <= i < |parts| ==>
      parts[i] != "" && IsNumeral(parts[i]) && DecimalValue(parts[i]) == SegmentValues(parts).value[i]
  {
    if parts != [] {
      SegmentAccepted(parts[0]);
      SegmentValuesEach(parts[1..]);
      forall i | 0 < i < |parts|
        ensures parts[i] != "" && IsNumeral(parts[i]) && DecimalValue(parts[i]) == SegmentValues(parts).value[i]
      {
        assert parts[i] == parts[1..][i - 1];
      }
    }
  }

  lemma {:induction false} SegmentValuesOf(parts: seq<string>, v: seq<Uint16>)
    requires |parts| == |v|
    requires forall i :: 0 <= i < |v| ==>
      parts[i] != "" && IsNumeral(parts[i]) && DecimalValue(parts[i]) == v[i]
    ensures SegmentValues(parts) == Some(v)
  {
    if parts != [] {
      SegmentAccepted(parts[0]);
      SegmentValuesOf(parts[1..], v[1..]);
      assert v == [v[0]] + v[1..];
    }
  }
}
