/** The helper functions TreeInsertSqlGenerator uses to read a metric-tree
    YAML document before printing its INSERT statement: SQL quoting,
    first-non-blank key lookup, integer reading with a default, and the
    resolution of the root node. */
module TreeInsertSql {
  import opened Wrappers
  import opened DecimalDigits

  /** A value loaded from YAML. Mappings keep their insertion order
      (SnakeYAML builds a LinkedHashMap). `YInteger` is a whole number
      (Integer, Long or BigInteger); `YFloat` is a floating-point number
      (Double) with its Double.toString text; `YScalar` is any other
      non-collection value (a boolean, a timestamp) represented by its
      toString text. */
  datatype Yaml =
    | YNull
    | YString(s: string)
    | YInteger(n: int)
    | YFloat(d: Double, text: string)
    | YScalar(text: string)
    | YMap(entries: seq<(string, Yaml)>)
    | YList(items: seq<Yaml>)

  type YamlMap = seq<(string, Yaml)>

  /** A double: a finite value (taken exactly), an infinity, or NaN
      (YAML's .inf, -.inf and .nan). */
  datatype Double = Finite(x: real) | PositiveInfinity | NegativeInfinity | NaN

  // ---------------------------------------------------------------------
  // Text

  /** isBlank: null, or nothing left after String.trim, which strips every
      character up to U+0020. */
  predicate IsBlank(value: Option<string>) {
    value.None? || forall i :: 0 <= i < |value.value| ==> value.value[i] <= ' '
  }

  /** Integer.toString / Long.toString. */
  function IntText(n: int): (s: string)
    ensures 0 < |s|
  {
    if n < 0 then "-" + NatText(-n) else NatText(n)
  }

  function JoinItems(items: seq<Yaml>): string
    decreases items, 0
  {
    if items == [] then ""
    else if |items| == 1 then Text(items[0])
    else Text(items[0]) + ", " + JoinItems(items[1..])
  }

  function JoinEntries(entries: YamlMap): string
    decreases entries, 0
  {
    if entries == [] then ""
    else
      assert entries[0].1 < entries[0];
      var head := entries[0].0 + "=" + Text(entries[0].1);
      if |entries| == 1 then head else head + ", " + JoinEntries(entries[1..])
  }

  /** toString of a loaded value (AbstractMap / AbstractCollection style for
      collections). */
  function Text(v: Yaml): (t: string)
    decreases v, 1
  {
    match v
    case YNull => "null"
    case YString(s) => s
    case YInteger(n) => IntText(n)
    case YFloat(_, text) => text
    case YScalar(text) => text
    case YMap(entries) => "{" + JoinEntries(entries) + "}"
    case YList(items) => "[" + JoinItems(items) + "]"
  }

  /** Map.get: the value of the key, null when absent. */
  function Get(node: YamlMap, key: string): (r: Yaml)
    ensures r != YNull ==> exists i :: 0 <= i < |node| && node[i] == (key, r)
  {
    if node == [] then YNull
    else if node[0].0 == key then node[0].1
    else Get(node[1..], key)
  }

  predicate ContainsKey(node: YamlMap, key: string) {
    exists i :: 0 <= i < |node| && node[i].0 == key
  }

  // ---------------------------------------------------------------------
  // escapeSql

  /** Every ' doubled, everything else kept. */
  function Escape(s: string): (r: string)
    ensures |r| >= |s|
  {
    if s == [] then ""
    else (if s[0] == '\'' then "''" else [s[0]]) + Escape(s[1..])
  }

  /** escapeSql: null becomes the empty string. */
  function EscapeSql(value: Option<string>): (r: string)
    ensures value.None? ==> r == ""
    ensures value.Some? ==> r == Escape(value.value)
  {
    match value
    case None => ""
    case Some(s) => Escape(s)
  }

  /** The way a SQL reader takes a quoted literal's body back: '' is one '. */
  function Unescape(t: string): string {
    if |t| >= 2 && t[0] == '\'' && t[1] == '\'' then "'" + Unescape(t[2..])
    else if t == [] then ""
    else [t[0]] + Unescape(t[1..])
  }

  /** Quotes occur only in adjacent pairs, so the text can sit between two
      quotes of a SQL literal without ending it. */
  predicate QuotesPaired(t: string) {
    if t == [] then true
    else if t[0] == '\'' then |t| >= 2 && t[1] == '\'' && QuotesPaired(t[2..])
    else QuotesPaired(t[1..])
  }

  lemma {:induction false} EscapeRoundTrip(s: string)
    ensures Unescape(Escape(s)) == s
    ensures QuotesPaired(Escape(s))
  {
    if s != [] {
      EscapeRoundTrip(s[1..]);
      var rest := Escape(s[1..]);
      if s[0] == '\'' {
        assert Escape(s) == "''" + rest;
        assert ("''" + rest)[2..] == rest;
      } else {
        assert Escape(s) == [s[0]] + rest;
        assert ([s[0]] + rest)[1..] == rest;
      }
    }
  }

  /** A string without quotes is left as it is. */
  lemma {:induction false} EscapeWithoutQuotes(s: string)
    requires forall i :: 0 <= i < |s| ==> s[i] != '\''
    ensures Escape(s) == s
  {
    if s != [] {
      EscapeWithoutQuotes(s[1..]);
    }
  }

  // ---------------------------------------------------------------------
  // readText, defaultIfBlank

  /** A key readText may take a value from: a non-blank key whose value is a
      non-blank string, or any other non-null, non-map value whose text is
      non-blank. */
  predicate Usable(node: YamlMap, key: string) {
    && !IsBlank(Some(key))
    && Get(node, key) != YNull && !Get(node, key).YMap?
    && !IsBlank(Some(Text(Get(node, key))))
  }

  /** r is what readText gives for `keys`: present exactly when some key is
      usable, and then the text of the first usable key. */
  predicate FirstUsable(node: YamlMap, keys: seq<string>, r: Option<string>) {
    && (r.Some? <==> exists i :: 0 <= i < |keys| && Usable(node, keys[i]))
    && (r.Some? ==> exists i :: 0 <= i < |keys| && Usable(node, keys[i])
                      && r.value == Text(Get(node, keys[i]))
                      && forall j :: 0 <= j < i ==> !Usable(node, keys[j]))
  }

  /** readText: the value of the first usable key, in argument order. */
  function ReadText(node: Option<YamlMap>, keys: seq<string>): (r: Option<string>)
    ensures node.None? ==> r.None?
    ensures node.Some? ==> FirstUsable(node.value, keys, r)
    ensures r.Some? ==> !IsBlank(r)
    decreases keys, 1
  {
    if node.None? || keys == [] then None
    else if IsBlank(Some(keys[0])) then SkipFirst(node.value, keys)
    else
      var value := Get(node.value, keys[0]);
      if value.YString? && !IsBlank(Some(value.s)) then Some(value.s)
      else if value != YNull && !value.YMap? then
        var text := Text(value);
        if !IsBlank(Some(text)) then Some(text) else SkipFirst(node.value, keys)
      else SkipFirst(node.value, keys)
  }

  /** The search past an unusable first key. */
  function SkipFirst(node: YamlMap, keys: seq<string>): (r: Option<string>)
    requires keys != [] && !Usable(node, keys[0])
    ensures FirstUsable(node, keys, r)
    ensures r.Some? ==> !IsBlank(r)
    decreases keys, 0
  {
    var r := ReadText(Some(node), keys[1..]);
    FirstUsableShift(node, keys, r);
    r
  }

  lemma FirstUsableShift(node: YamlMap, keys: seq<string>, r: Option<string>)
    requires keys != [] && !Usable(node, keys[0])
    requires FirstUsable(node, keys[1..], r)
    ensures FirstUsable(node, keys, r)
  {
    if r.Some? {
      var i :| 0 <= i < |keys[1..]| && Usable(node, keys[1..][i]) && r.value == Text(Get(node, keys[1..][i]))
               && forall j :: 0 <= j < i ==> !Usable(node, keys[1..][j]);
      assert keys[i + 1] == keys[1..][i];
      forall j | 0 <= j < i + 1 ensures !Usable(node, keys[j]) {
        if 0 < j { assert keys[j] == keys[1..][j - 1]; }
      }
    } else {
      forall i | 0 <= i < |keys| ensures !Usable(node, keys[i]) {
        if 0 < i { assert keys[i] == keys[1..][i - 1]; }
      }
    }
  }

  /** defaultIfBlank. */
  function DefaultIfBlank(value: Option<string>, default: Option<string>): (r: Option<string>)
    ensures IsBlank(value) ==> r == default
    ensures !IsBlank(value) ==> r == value
  {
    if IsBlank(value) then default else value
  }

  // ---------------------------------------------------------------------
  // readInt

  const IntMin: int := -0x8000_0000
  const IntMax: int := 0x7FFF_FFFF

  predicate InInt32(n: int) { IntMin <= n <= IntMax }

  /** Number.intValue of a whole number: its low 32 bits, two's complement. */
  function IntValue(n: int): (r: int)
    ensures InInt32(r)
    ensures (r - n) % 0x1_0000_0000 == 0
    ensures InInt32(n) ==> r == n
  {
    (n - IntMin) % 0x1_0000_0000 + IntMin
  }

  /** The integer part of a real: rounding toward zero. */
  function Truncate(x: real): (n: int)
    ensures 0.0 <= x ==> n as real <= x < n as real + 1.0
    ensures x < 0.0 ==> n as real - 1.0 < x <= n as real
  {
    if 0.0 <= x then x.Floor else -((-x).Floor)
  }

  /** Double.intValue, the narrowing of section 5.1.3 of the Java Language
      Specification: NaN gives 0, a finite value is rounded toward zero, and
      anything outside the int range saturates at its nearer bound. */
  function DoubleIntValue(d: Double): (r: int)
    ensures InInt32(r)
    ensures d.NaN? ==> r == 0
    ensures d.PositiveInfinity? ==> r == IntMax
    ensures d.NegativeInfinity? ==> r == IntMin
    ensures d.Finite? && InInt32(Truncate(d.x)) ==> r == Truncate(d.x)
    ensures d.Finite? && IntMax < Truncate(d.x) ==> r == IntMax
    ensures d.Finite? && Truncate(d.x) < IntMin ==> r == IntMin
  {
    match d
    case NaN => 0
    case PositiveInfinity => IntMax
    case NegativeInfinity => IntMin
    case Finite(x) =>
      var n := Truncate(x);
      if n < IntMin then IntMin else if IntMax < n then IntMax else n
  }

  /** Integer.parseInt in base 10 over ASCII digits: an optional sign, at
      least one digit, and a value inside the int range; otherwise
      NumberFormatException (None). */
  function ParseInt(s: string): (r: Option<int>)
    ensures r.Some? ==> InInt32(r.value)
  {
    if s == [] then None
    else
      var negative := s[0] == '-';
      var digits := if s[0] == '-' || s[0] == '+' then s[1..] else s;
      if digits == [] || !AllDigits(digits) then None
      else
        var magnitude: int := DigitsValue(digits);
        var v := if negative then 0 - magnitude else magnitude;
        if InInt32(v) then Some(v) else None
  }

  /** The text of every int parses back to it. */
  lemma ParseIntText(n: int)
    requires InInt32(n)
    ensures ParseInt(IntText(n)) == Some(n)
  {
    if n < 0 {
      ParseNegatedText(-n);
    } else {
      ParseNatText(n);
    }
  }

  lemma ParseNatText(m: nat)
    requires m <= IntMax
    ensures ParseInt(NatText(m)) == Some(m)
  {
    var s := NatText(m);
    NatTextValue(m);
    assert s[0] in "0123456789";
  }

  lemma ParseNegatedText(m: nat)
    requires 0 < m && InInt32(-(m as int))
    ensures ParseInt("-" + NatText(m)) == Some(-(m as int))
  {
    var s := "-" + NatText(m);
    NatTextValue(m);
    assert s[0] == '-' && s[1..] == NatText(m);
  }

  /** readInt: intValue of a number; otherwise the value's text parsed, the
      default for a missing, null or unparseable value. */
  function ReadInt(node: YamlMap, key: string, default: int): (r: int)
    requires InInt32(default)
    ensures InInt32(r)
    ensures Get(node, key) == YNull ==> r == default
    ensures Get(node, key).YInteger? ==> r == IntValue(Get(node, key).n)
    ensures Get(node, key).YFloat? ==> r == DoubleIntValue(Get(node, key).d)
    ensures !Get(node, key).YNull? && !Get(node, key).YInteger? && !Get(node, key).YFloat? ==>
              r == ParseInt(Text(Get(node, key))).GetOr(default)
  {
    match Get(node, key)
    case YInteger(n) => IntValue(n)
    case YFloat(d, _) => DoubleIntValue(d)
    case YNull => default
    case other =>
      match ParseInt(Text(other))
      case Some(i) => i
      case None => default
  }

  /** Lists and maps never parse as a number. */
  lemma CollectionsReadAsDefault(node: YamlMap, key: string, default: int)
    requires InInt32(default)
    requires Get(node, key).YMap? || Get(node, key).YList?
    ensures ReadInt(node, key, default) == default
  {
  }

  /** A version written as a YAML float is truncated toward zero: 2.9 reads
      as 2, -2.9 as -2, and NaN as 0, whatever the default. */
  lemma FloatVersionTruncates(default: int)
    requires InInt32(default)
    ensures ReadInt([("version", YFloat(Finite(2.9), "2.9"))], "version", default) == 2
    ensures ReadInt([("version", YFloat(Finite(-2.9), "-2.9"))], "version", default) == -2
    ensures ReadInt([("version", YFloat(NaN, "NaN"))], "version", default) == 0
    ensures ReadInt([("version", YFloat(Finite(1.0e10), "1.0E10"))], "version", default) == IntMax
  {
    assert Truncate(2.9) == 2;
    assert Truncate(-2.9) == -2;
    assert Truncate(1.0e10) == 10000000000;
  }

  /** A version written as text reads as the number it spells. */
  lemma VersionAsText(node: YamlMap, n: int, default: int)
    requires InInt32(n) && InInt32(default)
    requires Get(node, "version") == YString(IntText(n))
    ensures ReadInt(node, "version", default) == n
  {
    ParseIntText(n);
  }

  // ---------------------------------------------------------------------
  // resolveRootNode, normalizeRoot

  /** The value is a map, or an iterable with such a value somewhere inside. */
  predicate ContainsMap(v: Yaml)
    decreases v, 1
  {
    v.YMap? || (v.YList? && AnyContainsMap(v.items))
  }

  predicate AnyContainsMap(items: seq<Yaml>)
    decreases items, 0
  {
    items != [] && (ContainsMap(items[0]) || AnyContainsMap(items[1..]))
  }

  /** normalizeRoot: a map is itself; an iterable gives the first element
      that normalises, searched depth first; anything else is null. */
  function NormalizeRoot(candidate: Yaml): (r: Option<Yaml>)
    ensures r.Some? ==> r.value.YMap?
    ensures r.Some? <==> ContainsMap(candidate)
    ensures candidate.YMap? ==> r == Some(candidate)
    decreases candidate, 1
  {
    match candidate
    case YMap(_) => Some(candidate)
    case YList(items) => FirstNormalized(items)
    case _ => None
  }

  function FirstNormalized(items: seq<Yaml>): (r: Option<Yaml>)
    ensures r.Some? ==> r.value.YMap?
    ensures r.Some? <==> AnyContainsMap(items)
    decreases items, 0
  {
    if items == [] then None
    else
      match NormalizeRoot(items[0])
      case Some(m) => Some(m)
      case None => FirstNormalized(items[1..])
  }

  /** Within a list, the elements before the one chosen hold no map at all. */
  lemma {:induction false} FirstNormalizedIsFirst(items: seq<Yaml>)
    requires AnyContainsMap(items)
    ensures exists k :: 0 <= k < |items| && ContainsMap(items[k]) && FirstNormalized(items) == NormalizeRoot(items[k])
                        && forall j :: 0 <= j < k ==> !ContainsMap(items[j])
    decreases items
  {
    if !ContainsMap(items[0]) {
      FirstNormalizedIsFirst(items[1..]);
      var k :| 0 <= k < |items[1..]| && ContainsMap(items[1..][k])
               && FirstNormalized(items[1..]) == NormalizeRoot(items[1..][k])
               && forall j :: 0 <= j < k ==> !ContainsMap(items[1..][j]);
      assert items[k + 1] == items[1..][k];
      forall j | 0 <= j < k + 1 ensures !ContainsMap(items[j]) {
        if 0 < j { assert items[j] == items[1..][j - 1]; }
      }
    } else {
      assert ContainsMap(items[0]) && FirstNormalized(items) == NormalizeRoot(items[0]);
    }
  }

  /** The candidate for the root before normalisation: "root", else
      "treeConfig", else the whole document when it has a "nodeId". */
  function RootCandidate(treeNode: YamlMap): (r: Yaml)
    ensures Get(treeNode, "root") != YNull ==> r == Get(treeNode, "root")
    ensures Get(treeNode, "root") == YNull && Get(treeNode, "treeConfig") != YNull ==> r == Get(treeNode, "treeConfig")
    ensures Get(treeNode, "root") == YNull && Get(treeNode, "treeConfig") == YNull ==>
              r == if ContainsKey(treeNode, "nodeId") then YMap(treeNode) else YNull
  {
    var root := Get(treeNode, "root");
    var root := if root == YNull then Get(treeNode, "treeConfig") else root;
    if root == YNull && ContainsKey(treeNode, "nodeId") then YMap(treeNode) else root
  }

  /** resolveRootNode. */
  function ResolveRootNode(treeNode: YamlMap): (r: Option<Yaml>)
    ensures r.Some? ==> r.value.YMap?
    ensures r.Some? <==> ContainsMap(RootCandidate(treeNode))
  {
    NormalizeRoot(RootCandidate(treeNode))
  }

  /** A "root" that is present but neither a map nor a list holding one
      stops the search: "treeConfig" is not consulted and the root is
      reported missing. */
  lemma ScalarRootHidesTreeConfig(treeNode: YamlMap)
    requires Get(treeNode, "root").YString? || Get(treeNode, "root").YInteger? || Get(treeNode, "root").YFloat?
             || Get(treeNode, "root").YScalar?
    ensures ResolveRootNode(treeNode).None?
  {
  }

  /** A map under "root" wins over everything else. */
  lemma RootKeyWins(treeNode: YamlMap)
    requires Get(treeNode, "root").YMap?
    ensures ResolveRootNode(treeNode) == Some(Get(treeNode, "root"))
  {
  }

  /** A document that is itself a node serves as its own root. */
  lemma DocumentAsRoot(treeNode: YamlMap)
    requires Get(treeNode, "root") == YNull && Get(treeNode, "treeConfig") == YNull
    requires ContainsKey(treeNode, "nodeId")
    ensures ResolveRootNode(treeNode) == Some(YMap(treeNode))
  {
  }

  // ---------------------------------------------------------------------
  // The header of the INSERT statement

  /** asMap: a map's entries (keys are already strings here), else null. */
  function AsMap(v: Yaml): (r: Option<YamlMap>)
    ensures v.YMap? <==> r.Some?
  {
    if v.YMap? then Some(v.entries) else None
  }

  /** The fields generateInsertSql reads from the document before it prints. */
  datatype TreeHeader = TreeHeader(
    treeId: Option<string>,
    treeName: Option<string>,
    version: int,
    root: Yaml,
    metricId: Option<string>,
    metricName: Option<string>)

  const MissingRootMessage := "YAML 中缺少 root 节点: "

  /** The values of the statement: tree id and name (the name defaulting to
      the id), version (default 1), the resolved root (its absence is
      rejected), and the metric id and name, each read from the document
      first and from the root node when blank there. */
  function ReadHeader(treeNode: YamlMap, path: string): (r: Result<TreeHeader, string>)
    ensures r.Err? <==> ResolveRootNode(treeNode).None?
    ensures r.Err? ==> r.error == MissingRootMessage + path
    ensures r.Ok? ==> r.value.root.YMap? && Some(r.value.root) == ResolveRootNode(treeNode)
    ensures r.Ok? ==> r.value.treeId == ReadText(Some(treeNode), ["treeId", "tree_id"])
    ensures r.Ok? && IsBlank(ReadText(Some(treeNode), ["treeName", "tree_name"])) ==>
              r.value.treeName == r.value.treeId
    ensures r.Ok? && !IsBlank(ReadText(Some(treeNode), ["treeName", "tree_name"])) ==>
              r.value.treeName == ReadText(Some(treeNode), ["treeName", "tree_name"])
    ensures r.Ok? ==> InInt32(r.value.version) && r.value.version == ReadInt(treeNode, "version", 1)
    ensures r.Ok? && !IsBlank(ReadText(Some(treeNode), ["metricId", "metric_id"])) ==>
              r.value.metricId == ReadText(Some(treeNode), ["metricId", "metric_id"])
    ensures r.Ok? && !IsBlank(ReadText(Some(treeNode), ["metricName", "metric_name", "nodeName"])) ==>
              r.value.metricName == ReadText(Some(treeNode), ["metricName", "metric_name", "nodeName"])
    ensures r.Ok? && IsBlank(ReadText(Some(treeNode), ["metricName", "metric_name", "nodeName"])) ==>
              r.value.metricName == ReadText(Some(r.value.root.entries), ["nodeName", "metricName"])
  {
    var treeId := ReadText(Some(treeNode), ["treeId", "tree_id"]);
    var treeName := DefaultIfBlank(ReadText(Some(treeNode), ["treeName", "tree_name"]), treeId);
    var version := ReadInt(treeNode, "version", 1);
    match ResolveRootNode(treeNode)
    case None => Err(MissingRootMessage + path)
    case Some(root) =>
      var metricId := ReadText(Some(treeNode), ["metricId", "metric_id"]);
      var metricId := if IsBlank(metricId) then ReadText(AsMap(root), ["metricId", "metric_id"]) else metricId;
      var metricName := ReadText(Some(treeNode), ["metricName", "metric_name", "nodeName"]);
      var metricName := if IsBlank(metricName) then ReadText(AsMap(root), ["nodeName", "metricName"]) else metricName;
      Ok(TreeHeader(treeId, treeName, version, root, metricId, metricName))
  }

  /** A metric id missing from the document is taken from the root node. */
  lemma MetricIdFromRoot(treeNode: YamlMap, path: string)
    requires ReadHeader(treeNode, path).Ok?
    requires IsBlank(ReadText(Some(treeNode), ["metricId", "metric_id"]))
    ensures ReadHeader(treeNode, path).value.metricId
            == ReadText(Some(ReadHeader(treeNode, path).value.root.entries), ["metricId", "metric_id"])
  {
  }
}
