/**
 * The descriptor-line classifier. It recognises the two line shapes the tool acts on,
 * with the leftmost-alternative, backtracking reading of the patterns
 *
 *   extent line:  ^\s*(RW|RDONLY|NOACCESS)\s+(\d+)\s+(VMFS|VMFSSPARSE)\s+"([^"]+)"
 *   parent line:  ^\s*parentFileNameHint\s*=\s*"([^"]+)"
 *
 * Anything after the closing quote is ignored; every other line is OtherLine. The patterns
 * search a C string, so a line is read only up to its first NUL character.
 */
module DescriptorLine {
  import opened Types

  datatype Line =
    | ExtentLine(access: string, size: nat, typeName: string, path: string)
    | ParentLine(path: string)
    | OtherLine

  const ACCESS_MODES: seq<string> := ["RW", "RDONLY", "NOACCESS"]
  const EXTENT_TYPES: seq<string> := ["VMFS", "VMFSSPARSE"]
  const PARENT_KEY: string := "parentFileNameHint"

  /** The `\s` class: space, tab, newline, vertical tab, form feed, carriage return. */
  predicate IsSpace(c: char) { c == ' ' || '\t' <= c <= '\r' }

  /** The `\d` class. */
  predicate IsDigit(c: char) { '0' <= c <= '9' }

  /** The character classes the patterns repeat: `\s`, `\d` and `[^"]`. */
  datatype CharClass = Space | Digit | NotQuote

  predicate In(c: char, cls: CharClass) {
    match cls
    case Space => IsSpace(c)
    case Digit => IsDigit(c)
    case NotQuote => c != '"'
  }

  /** The end of the longest run of characters satisfying `p` that starts at `i`. */
  function Span(s: string, i: nat, cls: CharClass): (j: nat)
    requires i <= |s|
    ensures i <= j <= |s|
    ensures forall k :: i <= k < j ==> In(s[k], cls)
    ensures j < |s| ==> !In(s[j], cls)
    decreases |s| - i
  {
    if i < |s| && In(s[i], cls) then Span(s, i + 1, cls) else i
  }

  /** `w` occurs in `s` at position `i`. */
  predicate HasAt(s: string, i: nat, w: string) {
    i + |w| <= |s| && s[i..i + |w|] == w
  }

  /** `w` occurs at `i` and a whitespace character follows it. */
  predicate Followed(s: string, i: nat, w: string) {
    HasAt(s, i, w) && i + |w| < |s| && IsSpace(s[i + |w|])
  }

  /**
   * An alternation followed by `\s+`: the first alternative that occurs at `i` and is
   * followed by a whitespace character (a later alternative is tried when an earlier one
   * matches but no whitespace follows it).
   */
  function Token(s: string, i: nat, alternatives: seq<string>): (r: Option<string>)
    ensures r.Some? ==> r.value in alternatives && Followed(s, i, r.value)
    ensures r.None? ==> forall n :: 0 <= n < |alternatives| ==> !Followed(s, i, alternatives[n])
  {
    TokenFrom(s, i, alternatives, 0)
  }

  /** The alternation, trying alternatives[n..] in order. */
  function TokenFrom(s: string, i: nat, alternatives: seq<string>, n: nat): (r: Option<string>)
    requires n <= |alternatives|
    ensures r.Some? ==> r.value in alternatives && Followed(s, i, r.value)
    ensures r.None? ==> forall m :: n <= m < |alternatives| ==> !Followed(s, i, alternatives[m])
    decreases |alternatives| - n
  {
    if n == |alternatives| then None
    else if Followed(s, i, alternatives[n]) then Some(alternatives[n])
    else TokenFrom(s, i, alternatives, n + 1)
  }

  /** `"([^"]+)"` at position `i`: the non-empty quote-free text between two quotes. */
  function Quoted(s: string, i: nat): (r: Option<string>)
    requires i <= |s|
    ensures r.Some? ==> |r.value| > 0 && '"' !in r.value
    ensures r.Some? ==> forall c :: c in r.value ==> c in s
  {
    if i < |s| && s[i] == '"' then
      var j := Span(s, i + 1, NotQuote);
      if i + 1 < j < |s| then
        assert forall c :: c in s[i + 1..j] ==> In(c, NotQuote);
        Some(s[i + 1..j])
      else None
    else None
  }

  /** The value of a decimal digit string, most significant digit first. */
  function DecimalValue(ds: string): nat
    requires forall k :: 0 <= k < |ds| ==> IsDigit(ds[k])
  {
    DecimalPrefix(ds, |ds|)
  }

  /** The value of the first `n` digits of `ds`. */
  function DecimalPrefix(ds: string, n: nat): nat
    requires n <= |ds| && forall k :: 0 <= k < n ==> IsDigit(ds[k])
  {
    if n == 0 then 0 else 10 * DecimalPrefix(ds, n - 1) + DigitValue(ds[n - 1])
  }

  /** The value of the digits s[b..c], read in place. */
  function DecimalRange(s: string, b: nat, c: nat): nat
    requires b <= c <= |s| && forall k :: b <= k < c ==> IsDigit(s[k])
    decreases c - b
  {
    if c == b then 0 else 10 * DecimalRange(s, b, c - 1) + DigitValue(s[c - 1])
  }

  /** Digits read in place are worth what the same digits are worth on their own. */
  lemma {:induction false} DecimalRangeOf(s: string, b: nat, ds: string, n: nat)
    requires b + n <= |s| && n <= |ds|
    requires forall k :: 0 <= k < n ==> IsDigit(ds[k])
    requires forall k :: b <= k < b + n ==> s[k] == ds[k - b]
    ensures DecimalRange(s, b, b + n) == DecimalPrefix(ds, n)
  {
    if n > 0 {
      DecimalRangeOf(s, b, ds, n - 1);
    }
  }

  lemma {:induction false} DecimalPrefixOf(a: string, b: string, n: nat)
    requires n <= |a| && n <= |b| && a[..n] == b[..n]
    requires forall k :: 0 <= k < n ==> IsDigit(a[k])
    ensures forall k :: 0 <= k < n ==> IsDigit(b[k])
    ensures DecimalPrefix(a, n) == DecimalPrefix(b, n)
  {
    forall k | 0 <= k < n ensures a[k] == b[k] {
      assert a[k] == a[..n][k];
    }
    if n > 0 {
      assert a[..n - 1] == a[..n][..n - 1];
      assert b[..n - 1] == b[..n][..n - 1];
      DecimalPrefixOf(a, b, n - 1);
    }
  }

  function DigitValue(c: char): (v: nat)
    requires IsDigit(c)
    ensures v < 10
  {
    c as int - '0' as int
  }

  /** The text a C string holds: `s` up to its first NUL character. */
  function CText(s: string): (t: string)
    ensures t <= s && '\0' !in t
    ensures |t| < |s| ==> s[|t|] == '\0'
  {
    if s == [] || s[0] == '\0' then [] else [s[0]] + CText(s[1..])
  }

  /** The line the tool takes a descriptor line for. */
  function ClassifyLine(s: string): (l: Line)
    ensures l.ExtentLine? ==>
              l.access in ACCESS_MODES && l.typeName in EXTENT_TYPES && |l.path| > 0 && '"' !in l.path
    ensures l.ParentLine? ==> |l.path| > 0 && '"' !in l.path
    ensures l.ExtentLine? || l.ParentLine? ==> '\0' !in l.path
  {
    var t := CText(s);
    match ExtentFields(t)
    case Some(l) => l
    case None => ParentField(t)
  }

  /** Two lines that agree up to a NUL character are classified alike. */
  lemma {:induction false} ClassifyCut(s: string, k: nat)
    requires k < |s| && s[k] == '\0'
    ensures ClassifyLine(s[..k]) == ClassifyLine(s)
  {
    var t, u := CText(s), CText(s[..k]);
    assert |t| <= k;
    assert |u| == |t|;
    assert u == t;
  }

  /** The extent pattern, or None when it does not match. */
  function ExtentFields(s: string): (r: Option<Line>)
    ensures r.Some? ==> r.value.ExtentLine? && r.value.access in ACCESS_MODES
                        && r.value.typeName in EXTENT_TYPES && |r.value.path| > 0 && '"' !in r.value.path
    ensures r.Some? ==> forall c :: c in r.value.path ==> c in s
  {
    var a := Span(s, 0, Space);
    match Token(s, a, ACCESS_MODES)
    case None => None
    case Some(mode) => SizeField(s, mode, Span(s, a + |mode|, Space))
  }

  /** `(\d+)\s+` at `b`, then the rest of the extent pattern. */
  function SizeField(s: string, mode: string, b: nat): (r: Option<Line>)
    requires b <= |s|
    ensures r.Some? ==> r.value.ExtentLine? && r.value.access == mode
                        && r.value.typeName in EXTENT_TYPES && |r.value.path| > 0 && '"' !in r.value.path
    ensures r.Some? ==> forall c :: c in r.value.path ==> c in s
  {
    var c := Span(s, b, Digit);
    if c == b || c == |s| || !IsSpace(s[c]) then None
    else TypeAndPath(s, mode, DecimalRange(s, b, c), Span(s, c, Space))
  }

  /** `(VMFS|VMFSSPARSE)\s+"([^"]+)"` at `d`. */
  function TypeAndPath(s: string, mode: string, size: nat, d: nat): (r: Option<Line>)
    requires d <= |s|
    ensures r.Some? ==> r.value.ExtentLine? && r.value.access == mode && r.value.size == size
                        && r.value.typeName in EXTENT_TYPES && |r.value.path| > 0 && '"' !in r.value.path
    ensures r.Some? ==> forall c :: c in r.value.path ==> c in s
  {
    match Token(s, d, EXTENT_TYPES)
    case None => None
    case Some(t) =>
      match Quoted(s, Span(s, d + |t|, Space))
      case None => None
      case Some(p) => Some(ExtentLine(mode, size, t, p))
  }

  /** The parent pattern: a ParentLine, or OtherLine when it does not match. */
  function ParentField(s: string): (l: Line)
    ensures l.ParentLine? || l.OtherLine?
    ensures l.ParentLine? ==> |l.path| > 0 && '"' !in l.path
    ensures l.ParentLine? ==> forall c :: c in l.path ==> c in s
  {
    var a := Span(s, 0, Space);
    if !HasAt(s, a, PARENT_KEY) then OtherLine
    else
      var b := Span(s, a + |PARENT_KEY|, Space);
      if b == |s| || s[b] != '=' then OtherLine
      else
        match Quoted(s, Span(s, b + 1, Space))
        case None => OtherLine
        case Some(p) => ParentLine(p)
  }

  /** The decimal digits of `n`, without leading zeros. */
  function Decimal(n: nat): (ds: string)
    ensures |ds| > 0 && forall k :: 0 <= k < |ds| ==> IsDigit(ds[k])
  {
    var last := ['0' + (n % 10) as char];
    if n < 10 then last else Decimal(n / 10) + last
  }

  lemma {:induction false} DecimalRoundTrip(n: nat)
    ensures DecimalValue(Decimal(n)) == n
  {
    var ds := Decimal(n);
    assert DigitValue(ds[|ds| - 1]) == n % 10;
    if n >= 10 {
      var hi := Decimal(n / 10);
      DecimalRoundTrip(n / 10);
      assert ds[..|hi|] == hi[..|hi|];
      DecimalPrefixOf(hi, ds, |hi|);
      assert DecimalPrefix(ds, |ds|) == 10 * DecimalPrefix(ds, |hi|) + DigitValue(ds[|hi|]);
    } else {
      assert DecimalPrefix(ds, |ds|) == 10 * DecimalPrefix(ds, 0) + DigitValue(ds[0]);
    }
  }

  /** The lines the classifier is meant to recognise: known keywords, a non-empty path without quotes or NULs. */
  predicate Canonical(l: Line) {
    match l
    case ExtentLine(access, _, typeName, path) =>
      access in ACCESS_MODES && typeName in EXTENT_TYPES && |path| > 0 && '"' !in path && '\0' !in path
    case ParentLine(path) => |path| > 0 && '"' !in path && '\0' !in path
    case OtherLine => true
  }

  /** A descriptor line for `l`, written with single spaces. */
  function Render(l: Line): string {
    match l
    case ExtentLine(access, size, typeName, path) =>
      access + " " + Decimal(size) + " " + typeName + " \"" + path + "\""
    case ParentLine(path) => PARENT_KEY + " = \"" + path + "\""
    case OtherLine => ""
  }

  /** A rendered canonical line holds no NUL, so the patterns see all of it. */
  lemma RenderText(l: Line)
    requires Canonical(l)
    ensures CText(Render(l)) == Render(l)
  {
    var s := Render(l);
    if l.ExtentLine? {
      assert '\0' !in l.access && '\0' !in l.typeName;
      assert '\0' !in Decimal(l.size);
    }
    assert '\0' !in s;
  }

  /** Span stops exactly at the first character outside the class. */
  lemma {:induction false} SpanAt(s: string, i: nat, j: nat, cls: CharClass)
    requires i <= j <= |s|
    requires forall k :: i <= k < j ==> In(s[k], cls)
    requires j < |s| ==> !In(s[j], cls)
    ensures Span(s, i, cls) == j
    decreases j - i
  {
    if i < j {
      SpanAt(s, i + 1, j, cls);
    }
  }

  /** The quoted-path tail of a rendered line is read back as the path. */
  lemma QuotedTail(s: string, e: nat, path: string)
    requires |path| > 0 && '"' !in path
    requires e + |path| + 2 == |s| && s[e] == '"' && s[e + 1..|s| - 1] == path && s[|s| - 1] == '"'
    ensures Quoted(s, e) == Some(path)
  {
    forall k | e + 1 <= k < e + 1 + |path| ensures In(s[k], NotQuote) {
      assert s[k] == path[k - e - 1];
    }
    SpanAt(s, e + 1, e + 1 + |path|, NotQuote);
  }

  /** The classifier reads every canonical line back as the line it renders. */
  lemma ClassifyRender(l: Line)
    requires Canonical(l)
    ensures ClassifyLine(Render(l)) == l
  {
    RenderText(l);
    match l
    case OtherLine =>
    case ParentLine(path) => ClassifyRenderParent(path);
    case ExtentLine(access, size, typeName, path) => ClassifyRenderExtent(access, size, typeName, path);
  }

  lemma ClassifyRenderParent(path: string)
    requires |path| > 0 && '"' !in path && '\0' !in path
    ensures ClassifyLine(Render(ParentLine(path))) == ParentLine(path)
  {
    RenderText(ParentLine(path));
    ParentNotExtent(path);
    ParentFieldRender(path);
  }

  /** A rendered parent line does not start with an access mode. */
  lemma ParentNotExtent(path: string)
    ensures ExtentFields(Render(ParentLine(path))) == None
  {
    var s := Render(ParentLine(path));
    assert s[0] == 'p';
    SpanAt(s, 0, 0, Space);
    assert Token(s, 0, ACCESS_MODES) == None;
  }

  lemma ParentFieldRender(path: string)
    requires |path| > 0 && '"' !in path
    ensures ParentField(Render(ParentLine(path))) == ParentLine(path)
  {
    var pre := PARENT_KEY + " = \"";
    var s := pre + path + "\"";
    var n := |PARENT_KEY|;
    assert |pre| == n + 4;
    assert s[..n] == PARENT_KEY by { assert s[..n] == pre[..n]; }
    assert s[n] == ' ' && s[n + 1] == '=' && s[n + 2] == ' ' && s[n + 3] == '"' by {
      assert s[n] == pre[n] && s[n + 1] == pre[n + 1] && s[n + 2] == pre[n + 2] && s[n + 3] == pre[n + 3];
    }
    assert s[0] == 'p';
    SpanAt(s, 0, 0, Space);
    assert HasAt(s, 0, PARENT_KEY);
    SpanAt(s, n, n + 1, Space);
    SpanAt(s, n + 2, n + 3, Space);
    assert s[n + 4..n + 4 + |path|] == path;
    QuotedTail(s, n + 3, path);
  }

  lemma ClassifyRenderExtent(access: string, size: nat, typeName: string, path: string)
    requires access in ACCESS_MODES && typeName in EXTENT_TYPES && |path| > 0 && '"' !in path && '\0' !in path
    ensures ClassifyLine(Render(ExtentLine(access, size, typeName, path))) == ExtentLine(access, size, typeName, path)
  {
    RenderText(ExtentLine(access, size, typeName, path));
    ExtentFieldsRender(access, size, typeName, path);
  }

  lemma ExtentFieldsRender(access: string, size: nat, typeName: string, path: string)
    requires access in ACCESS_MODES && typeName in EXTENT_TYPES && |path| > 0 && '"' !in path
    ensures ExtentFields(Render(ExtentLine(access, size, typeName, path))) == Some(ExtentLine(access, size, typeName, path))
  {
    var ds := Decimal(size);
    var s := Render(ExtentLine(access, size, typeName, path));
    ExtentLayout(s, access, ds, typeName, path);
    ExtentFieldsAt(s, access, ds, typeName, path);
    DecimalRoundTrip(size);
  }

  /** Where the fields of a rendered extent line sit. */
  lemma ExtentLayout(s: string, access: string, ds: string, typeName: string, path: string)
    requires s == access + " " + ds + " " + typeName + " \"" + path + "\""
    ensures |s| == |access| + |ds| + |typeName| + |path| + 5
    ensures s[..|access|] == access && s[|access|] == ' '
    ensures s[|access| + 1..|access| + 1 + |ds|] == ds && s[|access| + 1 + |ds|] == ' '
    ensures s[|access| + |ds| + 2..|access| + |ds| + 2 + |typeName|] == typeName
    ensures s[|access| + |ds| + 2 + |typeName|] == ' ' && s[|access| + |ds| + |typeName| + 3] == '"'
    ensures s[|access| + |ds| + |typeName| + 4..|s| - 1] == path && s[|s| - 1] == '"'
  {
    var p1 := access + " ";
    var p2 := p1 + ds + " ";
    var p3 := p2 + typeName + " \"";
    assert s == p3 + path + "\"";
    var m, dl, tl := |access|, |ds|, |typeName|;
    var e := m + dl + tl + 3;
    assert s[..m] == access && s[m] == ' ' by { assert s[..m] == p1[..m] && s[m] == p1[m]; }
    assert s[m + 1..m + 1 + dl] == ds && s[m + 1 + dl] == ' ' by {
      assert s[m + 1..m + 1 + dl] == p2[m + 1..m + 1 + dl] && s[m + 1 + dl] == p2[m + 1 + dl];
    }
    assert s[m + dl + 2..m + dl + 2 + tl] == typeName && s[m + dl + 2 + tl] == ' ' && s[e] == '"' by {
      assert s[m + dl + 2..m + dl + 2 + tl] == p3[m + dl + 2..m + dl + 2 + tl];
      assert s[m + dl + 2 + tl] == p3[m + dl + 2 + tl] && s[e] == p3[e];
    }
  }

  /** The extent pattern reads the fields back from a line laid out as a rendered one. */
  lemma ExtentFieldsAt(s: string, access: string, ds: string, typeName: string, path: string)
    requires access in ACCESS_MODES && typeName in EXTENT_TYPES && |path| > 0 && '"' !in path
    requires |ds| > 0 && forall k :: 0 <= k < |ds| ==> IsDigit(ds[k])
    requires |s| == |access| + |ds| + |typeName| + |path| + 5
    requires s[..|access|] == access && s[|access|] == ' '
    requires s[|access| + 1..|access| + 1 + |ds|] == ds && s[|access| + 1 + |ds|] == ' '
    requires s[|access| + |ds| + 2..|access| + |ds| + 2 + |typeName|] == typeName
    requires s[|access| + |ds| + 2 + |typeName|] == ' ' && s[|access| + |ds| + |typeName| + 3] == '"'
    requires s[|access| + |ds| + |typeName| + 4..|s| - 1] == path && s[|s| - 1] == '"'
    ensures ExtentFields(s) == Some(ExtentLine(access, DecimalValue(ds), typeName, path))
  {
    ExtentFacts(s, access, ds, typeName, path);
    FieldsCompose(s, access, |access| + 1, |access| + 1 + |ds|, DecimalValue(ds), |access| + |ds| + 2,
                  Some(ExtentLine(access, DecimalValue(ds), typeName, path)));
  }

  /** What each part of the extent pattern finds in a laid-out extent line. */
  lemma ExtentFacts(s: string, access: string, ds: string, typeName: string, path: string)
    requires access in ACCESS_MODES && typeName in EXTENT_TYPES && |path| > 0 && '"' !in path
    requires |ds| > 0 && forall k :: 0 <= k < |ds| ==> IsDigit(ds[k])
    requires |s| == |access| + |ds| + |typeName| + |path| + 5
    requires s[..|access|] == access && s[|access|] == ' '
    requires s[|access| + 1..|access| + 1 + |ds|] == ds && s[|access| + 1 + |ds|] == ' '
    requires s[|access| + |ds| + 2..|access| + |ds| + 2 + |typeName|] == typeName
    requires s[|access| + |ds| + 2 + |typeName|] == ' ' && s[|access| + |ds| + |typeName| + 3] == '"'
    requires s[|access| + |ds| + |typeName| + 4..|s| - 1] == path && s[|s| - 1] == '"'
    ensures |access| + 1 < |access| + 1 + |ds| < |s|
    ensures forall k :: |access| + 1 <= k < |access| + 1 + |ds| ==> IsDigit(s[k])
    ensures DecimalRange(s, |access| + 1, |access| + 1 + |ds|) == DecimalValue(ds)
    ensures Span(s, 0, Space) == 0 && Token(s, 0, ACCESS_MODES) == Some(access)
    ensures Span(s, |access|, Space) == |access| + 1
    ensures Span(s, |access| + 1, Digit) == |access| + 1 + |ds| && IsSpace(s[|access| + 1 + |ds|])
    ensures Span(s, |access| + 1 + |ds|, Space) == |access| + |ds| + 2
    ensures TypeAndPath(s, access, DecimalValue(ds), |access| + |ds| + 2)
            == Some(ExtentLine(access, DecimalValue(ds), typeName, path))
  {
    TypeStart(s, |access| + |ds| + 2, typeName);
    ExtentHeadFacts(s, access, ds);
    ExtentTailAt(s, |access| + |ds| + 2, access, DecimalValue(ds), typeName, path);
  }

  /** An extent type never starts with whitespace. */
  lemma TypeStart(s: string, i: nat, typeName: string)
    requires typeName in EXTENT_TYPES && i + |typeName| <= |s| && s[i..i + |typeName|] == typeName
    ensures !IsSpace(s[i])
  {
    assert s[i] == s[i..i + |typeName|][0];
  }

  /** Access mode and size field of a laid-out extent line. */
  lemma ExtentHeadFacts(s: string, access: string, ds: string)
    requires access in ACCESS_MODES && |ds| > 0 && forall k :: 0 <= k < |ds| ==> IsDigit(ds[k])
    requires |access| + |ds| + 2 < |s| && !IsSpace(s[|access| + |ds| + 2])
    requires s[..|access|] == access && s[|access|] == ' '
    requires s[|access| + 1..|access| + 1 + |ds|] == ds && s[|access| + 1 + |ds|] == ' '
    ensures forall k :: |access| + 1 <= k < |access| + 1 + |ds| ==> IsDigit(s[k])
    ensures DecimalRange(s, |access| + 1, |access| + 1 + |ds|) == DecimalValue(ds)
    ensures Span(s, 0, Space) == 0 && Token(s, 0, ACCESS_MODES) == Some(access)
    ensures Span(s, |access|, Space) == |access| + 1
    ensures Span(s, |access| + 1, Digit) == |access| + 1 + |ds| && IsSpace(s[|access| + 1 + |ds|])
    ensures Span(s, |access| + 1 + |ds|, Space) == |access| + |ds| + 2
  {
    DigitsAt(s, |access| + 1, ds);
    ExtentHeadAt(s, access, |ds|);
  }

  /** The digit string `ds` found at `b`, character by character and by value. */
  lemma DigitsAt(s: string, b: nat, ds: string)
    requires b + |ds| <= |s| && s[b..b + |ds|] == ds
    requires forall k :: 0 <= k < |ds| ==> IsDigit(ds[k])
    ensures forall k :: b <= k < b + |ds| ==> IsDigit(s[k])
    ensures DecimalRange(s, b, b + |ds|) == DecimalValue(ds)
  {
    forall k | b <= k < b + |ds| ensures s[k] == ds[k - b] {
      assert s[k] == s[b..b + |ds|][k - b];
    }
    DecimalRangeOf(s, b, ds, |ds|);
  }

  /** The extent pattern, step by step: access mode, size field b..c, then type and path from d. */
  lemma FieldsCompose(s: string, access: string, b: nat, c: nat, v: nat, d: nat, rest: Option<Line>)
    requires b == |access| + 1 && b < c < |s|
    requires forall k :: b <= k < c ==> IsDigit(s[k])
    requires DecimalRange(s, b, c) == v
    requires Span(s, 0, Space) == 0 && Token(s, 0, ACCESS_MODES) == Some(access)
    requires Span(s, |access|, Space) == b
    requires Span(s, b, Digit) == c && IsSpace(s[c]) && Span(s, c, Space) == d
    requires TypeAndPath(s, access, v, d) == rest
    ensures ExtentFields(s) == rest
  {
    ExtentFieldsStart(s, access, b);
    SizeFieldAt(s, access, b, c, v, d, rest);
  }

  /** A run of digits b..c, followed by a space, hands its value to the rest of the pattern. */
  lemma SizeFieldAt(s: string, mode: string, b: nat, c: nat, v: nat, d: nat, rest: Option<Line>)
    requires b < c < |s| && forall k :: b <= k < c ==> IsDigit(s[k])
    requires Span(s, b, Digit) == c && IsSpace(s[c])
    requires DecimalRange(s, b, c) == v
    requires Span(s, c, Space) == d && TypeAndPath(s, mode, v, d) == rest
    ensures SizeField(s, mode, b) == rest
  {
  }

  /** Once the access mode is found, the extent pattern continues with the size field. */
  lemma ExtentFieldsStart(s: string, access: string, b: nat)
    requires Span(s, 0, Space) == 0 && Token(s, 0, ACCESS_MODES) == Some(access)
    requires Span(s, |access|, Space) == b
    ensures ExtentFields(s) == SizeField(s, access, b)
  {
  }

  /** Access mode and size of a laid-out extent line: `dl` digits follow the mode and a space. */
  lemma ExtentHeadAt(s: string, access: string, dl: nat)
    requires access in ACCESS_MODES && dl > 0 && |access| + dl + 2 < |s|
    requires s[..|access|] == access && s[|access|] == ' '
    requires forall k :: |access| + 1 <= k < |access| + 1 + dl ==> IsDigit(s[k])
    requires s[|access| + 1 + dl] == ' ' && !IsSpace(s[|access| + dl + 2])
    ensures Span(s, 0, Space) == 0 && Token(s, 0, ACCESS_MODES) == Some(access)
    ensures Span(s, |access|, Space) == |access| + 1
    ensures Span(s, |access| + 1, Digit) == |access| + 1 + dl
    ensures Span(s, |access| + 1 + dl, Space) == |access| + dl + 2
  {
    var m := |access|;
    SpanAt(s, 0, 0, Space);
    AccessToken(s, access);
    SpanAt(s, m, m + 1, Space);
    SpanAt(s, m + 1, m + 1 + dl, Digit);
    SpanAt(s, m + 1 + dl, m + dl + 2, Space);
  }

  /** Type and path of a laid-out extent line whose type starts at `i`. */
  lemma ExtentTailAt(s: string, i: nat, mode: string, size: nat, typeName: string, path: string)
    requires typeName in EXTENT_TYPES && |path| > 0 && '"' !in path
    requires |s| == i + |typeName| + |path| + 3
    requires s[i..i + |typeName|] == typeName && s[i + |typeName|] == ' ' && s[i + |typeName| + 1] == '"'
    requires s[i + |typeName| + 2..|s| - 1] == path && s[|s| - 1] == '"'
    ensures TypeAndPath(s, mode, size, i) == Some(ExtentLine(mode, size, typeName, path))
  {
    var e := i + |typeName| + 1;
    TypeToken(s, i, typeName);
    SpanAt(s, i + |typeName|, e, Space);
    QuotedTail(s, e, path);
  }

  lemma AccessToken(s: string, access: string)
    requires access in ACCESS_MODES && |access| < |s| && s[..|access|] == access && s[|access|] == ' '
    ensures Token(s, 0, ACCESS_MODES) == Some(access)
  {
    assert HasAt(s, 0, access);
    if access != "RW" {
      assert s[1] != 'W';
    }
  }

  lemma TypeToken(s: string, i: nat, typeName: string)
    requires typeName in EXTENT_TYPES && i + |typeName| < |s|
    requires s[i..i + |typeName|] == typeName && s[i + |typeName|] == ' '
    ensures Token(s, i, EXTENT_TYPES) == Some(typeName)
  {
    if typeName == "VMFS" {
      assert Followed(s, i, EXTENT_TYPES[0]);
    } else {
      assert s[i + 4] == s[i..i + |typeName|][4] == 'S';
      assert !Followed(s, i, EXTENT_TYPES[0]);
      assert Followed(s, i, EXTENT_TYPES[1]);
      assert TokenFrom(s, i, EXTENT_TYPES, 1) == Some(typeName);
    }
  }


}
