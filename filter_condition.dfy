/** The filter-expression tree (FilterCondition): relation nodes combine
    sub-conditions with AND or OR, field nodes compare one field with a
    value. The builders only fill in fresh nodes, so a node is a value here. */
module FilterConditions {
  import opened Wrappers
  import opened JavaStrings

  const RelationAnd := "AND"
  const RelationOr := "OR"
  const RelationNode := "relation"
  const FieldNode := "field"
  /** The name of the equality operator the map builders use. */
  const Eq := "EQ"

  /** The value a field node compares with (a JSON-like scalar or list). */
  datatype FilterValue =
    | NullValue
    | TextValue(s: string)
    | NumberValue(x: real)
    | BoolValue(b: bool)
    | ListValue(items: seq<FilterValue>)

  /** One node; every property may be null, and so may the list of
      sub-conditions and each of its elements. */
  datatype FilterCondition = FilterCondition(
    nodeType: Option<string>,
    relation: Option<string>,
    field: Option<string>,
    op: Option<string>,
    value: FilterValue,
    subConditions: Conditions)

  /** The list of sub-conditions: null, or a list whose elements may be null. */
  datatype Conditions = NullList | List(items: seq<Option<FilterCondition>>)

  /** The exceptions the core can raise. */
  datatype FilterError = IllegalArgument(message: string) | NullPointer

  const FieldRequired := "field不能为空"

  /** `new FilterCondition()`: every property null. */
  const Fresh := FilterCondition(None, None, None, None, NullValue, NullList)

  /** The node type names "relation" / "field", compared ignoring case. */
  predicate IsRelation(c: FilterCondition) {
    c.nodeType.Some? && EqualsIgnoreCase(RelationNode, c.nodeType.value)
  }

  predicate IsFieldNode(c: FilterCondition) {
    c.nodeType.Some? && EqualsIgnoreCase(FieldNode, c.nodeType.value)
  }

  // ---------------------------------------------------------------------
  // Builders

  /** operation(field, op, value): a field node; an empty field throws. */
  function Operation(field: Option<string>, op: string, value: FilterValue): (r: Result<FilterCondition, FilterError>)
    ensures r.Err? <==> IsEmptyStr(field)
    ensures r.Err? ==> r.error == IllegalArgument(FieldRequired)
    ensures r.Ok? ==> && r.value.nodeType == Some(FieldNode) && r.value.field == field
                      && r.value.op == Some(op) && r.value.value == value
                      && r.value.relation.None? && r.value.subConditions.NullList?
  {
    if IsEmptyStr(field) then Err(IllegalArgument(FieldRequired))
    else Ok(Fresh.(nodeType := Some(FieldNode), field := field, op := Some(op), value := value))
  }

  /** A relation node over exactly the given list. */
  function Relation(relation: string, conditions: Conditions): (r: FilterCondition)
    ensures r.nodeType == Some(RelationNode) && r.relation == Some(relation) && r.subConditions == conditions
    ensures r.field.None? && r.op.None?
  {
    Fresh.(nodeType := Some(RelationNode), relation := Some(relation), subConditions := conditions)
  }

  /** and(list) and or(list). */
  function And(conditions: Conditions): (r: FilterCondition)
    ensures r == Relation(RelationAnd, conditions)
  {
    Relation(RelationAnd, conditions)
  }

  function Or(conditions: Conditions): (r: FilterCondition)
    ensures r == Relation(RelationOr, conditions)
  {
    Relation(RelationOr, conditions)
  }

  /** and(field, op, value, filter): the AND of the new field node and filter. */
  function AndWith(field: Option<string>, op: string, value: FilterValue, filter: Option<FilterCondition>)
    : (r: Result<FilterCondition, FilterError>)
    ensures r.Err? <==> IsEmptyStr(field)
    ensures r.Ok? ==> r.value == And(List([Some(Operation(field, op, value).value), filter]))
  {
    var operation :- Operation(field, op, value);
    Ok(And(List([Some(operation), filter])))
  }

  /** A map's entries in iteration order; a HashMap may hold a null key. */
  type FieldValues = seq<(Option<string>, FilterValue)>

  /** One EQ field node per entry, in order; the first empty key throws. */
  function EqNodes(kv: FieldValues): (r: Result<seq<Option<FilterCondition>>, FilterError>)
    ensures r.Ok? <==> forall i :: 0 <= i < |kv| ==> !IsEmptyStr(kv[i].0)
    ensures r.Ok? ==> |r.value| == |kv| &&
                      forall i :: 0 <= i < |kv| ==> r.value[i] == Some(Operation(kv[i].0, Eq, kv[i].1).value)
  {
    if kv == [] then Ok([])
    else
      var done :- EqNodes(kv[..|kv| - 1]);
      var last :- Operation(kv[|kv| - 1].0, Eq, kv[|kv| - 1].1);
      Ok(done + [Some(last)])
  }

  /** and(map) / or(map): the loop that fills condList, then the relation. */
  method MapRelation(relation: string, kv: FieldValues) returns (r: Result<FilterCondition, FilterError>)
    ensures r.Ok? <==> EqNodes(kv).Ok?
    ensures r.Ok? ==> r.value == Relation(relation, List(EqNodes(kv).value))
    ensures r.Err? ==> r.error == IllegalArgument(FieldRequired)
  {
    var condList: seq<Option<FilterCondition>> := [];
    var i := 0;
    while i < |kv|
      invariant 0 <= i <= |kv|
      invariant EqNodes(kv[..i]) == Ok(condList)
    {
      assert kv[..i + 1][..i] == kv[..i];
      var operation := Operation(kv[i].0, Eq, kv[i].1);
      if operation.Err? {
        EqNodesErrorPropagates(kv, i + 1);
        assert kv[..i + 1][i] == kv[i];
        return Err(operation.error);
      }
      condList := condList + [Some(operation.value)];
      i := i + 1;
    }
    assert kv[..i] == kv;
    return Ok(Relation(relation, List(condList)));
  }

  lemma EqNodesErrorPropagates(kv: FieldValues, k: nat)
    requires k <= |kv| && EqNodes(kv[..k]).Err?
    ensures EqNodes(kv).Err?
  {
    var i :| 0 <= i < k && IsEmptyStr(kv[..k][i].0);
    assert kv[i] == kv[..k][i];
  }

  // ---------------------------------------------------------------------
  // isEmpty

  /** isEmpty: a relation node is empty when it has no sub-conditions or
      every non-null one is empty; any other node when its field is empty. */
  predicate IsEmpty(c: FilterCondition)
    decreases c, 1
  {
    if IsRelation(c) then c.subConditions.NullList? || AllEmpty(c.subConditions.items)
    else IsEmptyStr(c.field)
  }

  predicate AllEmpty(subs: seq<Option<FilterCondition>>)
    decreases subs, 0
  {
    subs == [] || (ChildEmpty(subs[0]) && AllEmpty(subs[1..]))
  }

  /** A sub-condition the isEmpty loop skips: null or empty. */
  predicate ChildEmpty(child: Option<FilterCondition>)
    decreases child, 2
  {
    child.None? || IsEmpty(child.value)
  }

  lemma {:induction false} AllEmptyMeans(subs: seq<Option<FilterCondition>>)
    ensures AllEmpty(subs) <==> forall i :: 0 <= i < |subs| ==> subs[i].None? || IsEmpty(subs[i].value)
  {
    if subs != [] {
      AllEmptyMeans(subs[1..]);
      assert forall i :: 1 <= i < |subs| ==> subs[i] == subs[1..][i - 1];
    }
  }

  /** A relation node is empty iff every sub-condition is null or empty;
      a node of any other type iff its field is empty. */
  lemma IsEmptySpec(c: FilterCondition)
    ensures IsRelation(c) ==>
              (IsEmpty(c) <==>
                 (|| c.subConditions.NullList?
                  || forall i :: 0 <= i < |c.subConditions.items| ==>
                       c.subConditions.items[i].None? || IsEmpty(c.subConditions.items[i].value)))
    ensures !IsRelation(c) ==> (IsEmpty(c) <==> IsEmptyStr(c.field))
  {
    if IsRelation(c) && c.subConditions.List? {
      AllEmptyMeans(c.subConditions.items);
    }
  }

  // ---------------------------------------------------------------------
  // getFields

  /** The distinct elements of s, each at its first occurrence. */
  function Distinct(s: seq<string>): (r: seq<string>)
    ensures forall x :: x in r <==> x in s
    ensures forall i, j :: 0 <= i < j < |r| ==> r[i] != r[j]
  {
    if s == [] then []
    else
      var d := Distinct(s[..|s| - 1]);
      assert forall x :: x in s <==> x in s[..|s| - 1] || x == s[|s| - 1];
      if s[|s| - 1] in d then d else d + [s[|s| - 1]]
  }

  /** The node's own field when it is not empty. */
  function OwnField(c: FilterCondition): (r: seq<string>)
    ensures r == [] <==> IsEmptyStr(c.field)
  {
    if IsEmptyStr(c.field) then [] else [c.field.value]
  }

  /** getFields: the node's own non-empty field, then every sub-condition's
      fields, duplicates removed; a null condition has none. */
  function GetFields(c: Option<FilterCondition>): (r: seq<string>)
    ensures forall i, j :: 0 <= i < j < |r| ==> r[i] != r[j]
    decreases c, 1
  {
    match c
    case None => []
    case Some(node) =>
      var children := if node.subConditions.List? then ChildFields(node.subConditions.items) else [];
      Distinct(OwnField(node) + children)
  }

  /** The fields of each sub-condition, one after the other. */
  function ChildFields(subs: seq<Option<FilterCondition>>): seq<string>
    decreases subs, 0
  {
    if subs == [] then [] else GetFields(subs[0]) + ChildFields(subs[1..])
  }

  /** Every non-empty field anywhere in the tree, as a set. */
  function FieldSet(c: Option<FilterCondition>): set<string>
    decreases c, 1
  {
    match c
    case None => {}
    case Some(node) =>
      (if IsEmptyStr(node.field) then {} else {node.field.value})
      + (if node.subConditions.List? then ChildFieldSet(node.subConditions.items) else {})
  }

  function ChildFieldSet(subs: seq<Option<FilterCondition>>): set<string>
    decreases subs, 0
  {
    if subs == [] then {} else FieldSet(subs[0]) + ChildFieldSet(subs[1..])
  }

  /** getFields lists exactly the non-empty fields of the tree, once each. */
  lemma {:induction false} GetFieldsSpec(c: Option<FilterCondition>)
    ensures forall x :: x in GetFields(c) <==> x in FieldSet(c)
    decreases c, 1
  {
    if c.Some? && c.value.subConditions.List? {
      ChildFieldsSpec(c.value.subConditions.items);
    }
  }

  lemma {:induction false} ChildFieldsSpec(subs: seq<Option<FilterCondition>>)
    ensures forall x :: x in ChildFields(subs) <==> x in ChildFieldSet(subs)
    decreases subs, 0
  {
    if subs != [] {
      GetFieldsSpec(subs[0]);
      ChildFieldsSpec(subs[1..]);
    }
  }

  // ---------------------------------------------------------------------
  // parseFilters

  /** The fields parseFilters lists for one sub-tree: nothing for a null or
      empty one; the children in order for a relation; the field for a field
      node; nothing for a node of any other type. A null sub-condition
      inside a non-empty relation throws NullPointerException. */
  function FilterFields(c: Option<FilterCondition>): (r: Result<seq<string>, FilterError>)
    decreases c, 1
  {
    if c.None? || IsEmpty(c.value) then Ok([])
    else if IsRelation(c.value) then
      if c.value.subConditions.NullList? then Ok([]) else RelationFields(c.value.subConditions.items)
    else if IsFieldNode(c.value) then Ok([c.value.field.value])
    else Ok([])
  }

  /** parseRelation's loop over the sub-conditions. */
  function RelationFields(subs: seq<Option<FilterCondition>>): (r: Result<seq<string>, FilterError>)
    decreases subs, 0
  {
    if subs == [] then Ok([])
    else if subs[0].None? then Err(NullPointer)
    else if IsEmpty(subs[0].value) then RelationFields(subs[1..])
    else
      var head :- FilterFields(subs[0]);
      var tail :- RelationFields(subs[1..]);
      Ok(head + tail)
  }

  /** The fields of `r` after those already in `prefix`; an error stays. */
  function Appended(prefix: seq<string>, r: Result<seq<string>, FilterError>): Result<seq<string>, FilterError> {
    if r.Ok? then Ok(prefix + r.value) else r
  }

  /** getFilterFields as the source runs it: the fields are appended to the
      shared list `fieldList`, which is threaded through. */
  method CollectFilterFields(c: Option<FilterCondition>, fieldList: seq<string>)
    returns (r: Result<seq<string>, FilterError>)
    ensures r == Appended(fieldList, FilterFields(c))
    decreases c, 1
  {
    if c.None? || IsEmpty(c.value) {
      assert fieldList + [] == fieldList;
      return Ok(fieldList);
    }
    if IsRelation(c.value) {
      r := ParseRelation(c.value, fieldList);
    } else if IsFieldNode(c.value) {
      r := Ok(fieldList + [c.value.field.value]);
    } else {
      assert fieldList + [] == fieldList;
      r := Ok(fieldList);
    }
  }

  /** parseRelation: each non-empty sub-condition in order; null throws. */
  method ParseRelation(c: FilterCondition, fieldList: seq<string>) returns (r: Result<seq<string>, FilterError>)
    requires IsRelation(c) && !IsEmpty(c)
    ensures r == Appended(fieldList, FilterFields(Some(c)))
    decreases c, 0
  {
    if c.subConditions.NullList? {
      // a relation without a list is empty, which the caller ruled out
      assert false;
    }
    var subs := c.subConditions.items;
    var acc := fieldList;
    var i := 0;
    while i < |subs|
      invariant 0 <= i <= |subs|
      invariant Appended(fieldList, RelationFields(subs)) == Appended(acc, RelationFields(subs[i..]))
    {
      var expr := subs[i];
      assert subs[i..][0] == expr && subs[i..][1..] == subs[i + 1..];
      if expr.None? {
        return Err(NullPointer);
      }
      if !IsEmpty(expr.value) {
        var next := CollectFilterFields(expr, acc);
        if next.Err? {
          return next;
        }
        var rest := RelationFields(subs[i + 1..]);
        if rest.Ok? {
          assert acc + (FilterFields(expr).value + rest.value) == next.value + rest.value;
        }
        acc := next.value;
      }
      i := i + 1;
    }
    assert subs[i..] == [];
    assert acc + [] == acc;
    r := Ok(acc);
  }

  /** parseFilters: [] for null, otherwise the fields of the tree. */
  method ParseFilters(filters: Option<FilterCondition>) returns (r: Result<seq<string>, FilterError>)
    ensures r == FilterFields(filters)
  {
    var fieldList: seq<string> := [];
    if filters.Some? {
      r := CollectFilterFields(filters, fieldList);
      if r.Ok? {
        assert [] + FilterFields(filters).value == FilterFields(filters).value;
      }
    } else {
      r := Ok(fieldList);
    }
  }

  // ---------------------------------------------------------------------
  // Properties

  /** Whatever parseFilters lists is a field getFields lists too. */
  lemma {:induction false} FilterFieldsWithinFieldSet(c: Option<FilterCondition>)
    requires FilterFields(c).Ok?
    ensures forall x :: x in FilterFields(c).value ==> x in FieldSet(c)
    decreases c, 1
  {
    if c.Some? && !IsEmpty(c.value) && IsRelation(c.value) && c.value.subConditions.List? {
      RelationFieldsWithin(c.value.subConditions.items);
    }
  }

  lemma {:induction false} RelationFieldsWithin(subs: seq<Option<FilterCondition>>)
    requires RelationFields(subs).Ok?
    ensures forall x :: x in RelationFields(subs).value ==> x in ChildFieldSet(subs)
    decreases subs, 0
  {
    if subs != [] && subs[0].Some? {
      RelationFieldsWithin(subs[1..]);
      if !IsEmpty(subs[0].value) {
        FilterFieldsWithinFieldSet(subs[0]);
      }
    }
  }

  /** parseFilters never lists a field that getFields does not. */
  lemma ParsedFieldsAreFields(c: Option<FilterCondition>)
    requires FilterFields(c).Ok?
    ensures forall x :: x in FilterFields(c).value ==> x in GetFields(c)
  {
    FilterFieldsWithinFieldSet(c);
    GetFieldsSpec(c);
  }

  /** An empty tree contributes nothing. */
  lemma EmptyParsesToNothing(c: FilterCondition)
    requires IsEmpty(c)
    ensures FilterFields(Some(c)) == Ok([])
  {
  }

  /** A non-empty node whose type is neither "relation" nor "field" is
      skipped: emptiness and parsing disagree on it. */
  lemma UnknownNodeTypeIsSkipped()
    ensures var c := Fresh.(nodeType := Some("other"), field := Some("city"));
            !IsEmpty(c) && FilterFields(Some(c)) == Ok([]) && GetFields(Some(c)) == ["city"]
  {
    var c := Fresh.(nodeType := Some("other"), field := Some("city"));
    assert !EqualsIgnoreCase(RelationNode, "other");
    assert !EqualsIgnoreCase(FieldNode, "other") by {
      assert FieldNode[0] == 'f' && "other"[0] == 'o';
    }
    DistinctSingle("city");
  }

  lemma DistinctSingle(x: string)
    ensures Distinct([x]) == [x] && Distinct([x] + []) == [x]
  {
    assert [x][..0] == [] && [x] + [] == [x];
  }

  /** Node types are matched ignoring case. */
  lemma FieldNodeTypeIgnoresCase(f: string, value: FilterValue)
    requires f != ""
    ensures FilterFields(Some(Fresh.(nodeType := Some("FIELD"), field := Some(f), value := value))) == Ok([f])
  {
    var c := Fresh.(nodeType := Some("FIELD"), field := Some(f), value := value);
    assert EqualsIgnoreCase(FieldNode, "FIELD");
    assert !EqualsIgnoreCase(RelationNode, "FIELD");
  }

  /** A field node built by operation lists its field. */
  lemma OperationFields(field: string, op: string, value: FilterValue)
    requires field != ""
    ensures var c := Operation(Some(field), op, value).value;
            !IsEmpty(c) && FilterFields(Some(c)) == Ok([field]) && GetFields(Some(c)) == [field]
  {
    var c := Operation(Some(field), op, value).value;
    assert EqualsIgnoreCase(FieldNode, FieldNode);
    assert !EqualsIgnoreCase(RelationNode, FieldNode);
    DistinctSingle(field);
  }

  /** and(field, op, value, filter) parses to the field followed by the
      filter's fields. */
  lemma AndWithFields(field: string, op: string, value: FilterValue, filter: FilterCondition)
    requires field != "" && FilterFields(Some(filter)).Ok?
    ensures var c := AndWith(Some(field), op, value, Some(filter));
            c.Ok? && FilterFields(Some(c.value)) == Ok([field] + FilterFields(Some(filter)).value)
  {
    var operation := Operation(Some(field), op, value).value;
    OperationFields(field, op, value);
    var subs := [Some(operation), Some(filter)];
    assert EqualsIgnoreCase(RelationNode, RelationNode);
    assert subs[1..][1..] == [];
    assert !AllEmpty(subs);
    if IsEmpty(filter) {
      assert RelationFields(subs[1..]) == Ok([]);
      assert [field] + [] == [field];
    } else {
      var tail := FilterFields(Some(filter)).value;
      assert tail + [] == tail;
      assert RelationFields(subs[1..]) == Ok(tail);
    }
  }

  /** ... but with a null filter the parse throws: the relation is not
      empty, so its null second element is dereferenced. */
  lemma AndWithNullFilterThrows(field: string, op: string, value: FilterValue)
    requires field != ""
    ensures var c := AndWith(Some(field), op, value, None);
            c.Ok? && FilterFields(Some(c.value)) == Err(NullPointer)
  {
    var operation := Operation(Some(field), op, value).value;
    OperationFields(field, op, value);
    var subs := [Some(operation), None];
    assert EqualsIgnoreCase(RelationNode, RelationNode);
    assert !AllEmpty(subs);
    assert subs[1..][0].None?;
    assert RelationFields(subs[1..]) == Err(NullPointer);
  }

  /** and(map) lists the keys in iteration order. */
  lemma {:induction false} EqNodesFields(kv: FieldValues)
    requires EqNodes(kv).Ok?
    ensures RelationFields(EqNodes(kv).value) == Ok(Keys(kv))
  {
    if kv != [] {
      var front := kv[..|kv| - 1];
      EqNodesFields(front);
      var last := kv[|kv| - 1];
      OperationFields(last.0.value, Eq, last.1);
      RelationFieldsAppend(EqNodes(front).value, Some(Operation(last.0, Eq, last.1).value));
      assert Keys(kv) == Keys(front) + [last.0.value];
    }
  }

  /** The keys of entries whose keys are all present. */
  function Keys(kv: FieldValues): (r: seq<string>)
    requires forall i :: 0 <= i < |kv| ==> kv[i].0.Some?
    ensures |r| == |kv| && forall i :: 0 <= i < |kv| ==> r[i] == kv[i].0.value
  {
    if kv == [] then [] else Keys(kv[..|kv| - 1]) + [kv[|kv| - 1].0.value]
  }

  lemma {:induction false} RelationFieldsAppend(subs: seq<Option<FilterCondition>>, last: Option<FilterCondition>)
    requires RelationFields(subs).Ok? && last.Some? && !IsEmpty(last.value) && FilterFields(last).Ok?
    ensures RelationFields(subs + [last]) == Ok(RelationFields(subs).value + FilterFields(last).value)
  {
    if subs == [] {
      var one := [last];
      assert subs + [last] == one && one[0] == last && one[1..] == [];
      assert RelationFields(one[1..]) == Ok([]);
      assert FilterFields(last).value + [] == FilterFields(last).value;
      assert RelationFields(one) == Ok(FilterFields(last).value);
      assert RelationFields(subs).value + FilterFields(last).value == FilterFields(last).value;
    } else {
      assert (subs + [last])[0] == subs[0];
      assert (subs + [last])[1..] == subs[1..] + [last];
      RelationFieldsAppend(subs[1..], last);
      if !IsEmpty(subs[0].value) {
        var head, tail := FilterFields(subs[0]).value, RelationFields(subs[1..]).value;
        assert head + (tail + FilterFields(last).value) == (head + tail) + FilterFields(last).value;
      }
    }
  }

  /** and(map) with every key present and non-empty: an AND whose fields
      are the keys, in iteration order. */
  lemma {:induction false} AndMapFields(kv: FieldValues)
    requires kv != [] && forall i :: 0 <= i < |kv| ==> !IsEmptyStr(kv[i].0)
    ensures var c := Relation(RelationAnd, List(EqNodes(kv).value));
            FilterFields(Some(c)) == Ok(Keys(kv))
  {
    EqNodesFields(kv);
    var subs := EqNodes(kv).value;
    assert EqualsIgnoreCase(RelationNode, RelationNode);
    assert subs[0] == Some(Operation(kv[0].0, Eq, kv[0].1).value);
    assert !AllEmpty(subs);
  }
}
