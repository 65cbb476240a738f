/**
 The bounded JSON Schema checker (internal/schema/schema.go). A payload is judged by a recursion
 that stops adding errors once there are more than five; maps are walked in any order.
 Regular expressions are a parameter.
 */
module Schema {
  import opened Strings
  import opened Options
  import Topics

  datatype JSON =
    | Null
    | Bool(b: bool)
    | Number(x: real)
    | Str(s: string)
    | Arr(items: seq<JSON>)
    | Obj(fields: map<string, JSON>)

  /* The regular expression engine: which patterns compile, and what they match. */
  datatype Engine = Engine(compiles: string -> bool, matches: (string, string) -> bool)

  const MAX_VALIDATION_ERRORS := 5

  const TYPES := ["object", "array", "string", "number", "integer", "boolean", "null"]

  const INT64_BOUND := 0x8000_0000_0000_0000

  /* A number the source's conversion to a 64-bit integer and back leaves alone. */
  predicate Whole(x: real) {
    x.Floor as real == x && -INT64_BOUND <= x.Floor < INT64_BOUND
  }

  // ---------------------------------------------------------------- accepted schemas

  predicate StringItems(items: seq<JSON>) {
    forall i :: 0 <= i < |items| ==> items[i].Str?
  }

  /* A value of `minLength` or `maxLength`. */
  predicate Length(value: JSON) {
    value.Number? && value.x >= 0.0 && Whole(value.x)
  }

  predicate AcceptedKeywords(re: Engine, node: map<string, JSON>) {
    && ("type" in node ==> node["type"].Str? && node["type"].s in TYPES)
    && ("required" in node ==> node["required"].Arr? && StringItems(node["required"].items))
    && ("additionalProperties" in node ==> node["additionalProperties"].Bool?)
    && ("enum" in node ==> node["enum"].Arr? && node["enum"].items != [])
    && (forall key :: key in {"minimum", "maximum"} && key in node ==> node[key].Number?)
    && (forall key :: key in {"minLength", "maxLength"} && key in node ==>
          Length(node[key]))
    && ("pattern" in node ==> node["pattern"].Str? && re.compiles(node["pattern"].s))
    && ("properties" in node ==> node["properties"].Obj?)
    && ("items" in node ==> node["items"].Obj?)
  }

  /* A schema of the supported subset, at every level. */
  predicate Accepted(re: Engine, schema: JSON)
    requires schema.Obj?
    decreases schema
  {
    var node := schema.fields;
    && AcceptedKeywords(re, node)
    && ("properties" in node ==>
          forall name :: name in node["properties"].fields ==>
            node["properties"].fields[name].Obj? && Accepted(re, node["properties"].fields[name]))
    && ("items" in node ==> Accepted(re, node["items"]))
  }

  method ValidateStrings(items: seq<JSON>) returns (ok: bool)
    ensures ok <==> StringItems(items)
  {
    for i := 0 to |items|
      invariant StringItems(items[..i])
    {
      if !items[i].Str? {
        return false;
      }
    }
    return true;
  }

  /* The keywords that hold no schema of their own. */
  method ValidateKeywords(re: Engine, node: map<string, JSON>) returns (ok: bool)
    ensures ok <==> AcceptedKeywords(re, node)
  {
    if "type" in node && !(node["type"].Str? && node["type"].s in TYPES) {
      return false;
    }
    if "required" in node {
      if !node["required"].Arr? {
        return false;
      }
      var strings := ValidateStrings(node["required"].items);
      if !strings {
        return false;
      }
    }
    if "properties" in node && !node["properties"].Obj? {
      return false;
    }
    if "additionalProperties" in node && !node["additionalProperties"].Bool? {
      return false;
    }
    if "enum" in node && !(node["enum"].Arr? && node["enum"].items != []) {
      return false;
    }
    if "minimum" in node && !node["minimum"].Number? {
      return false;
    }
    if "maximum" in node && !node["maximum"].Number? {
      return false;
    }
    if "minLength" in node && !Length(node["minLength"]) {
      return false;
    }
    if "maxLength" in node && !Length(node["maxLength"]) {
      return false;
    }
    if "pattern" in node && !(node["pattern"].Str? && re.compiles(node["pattern"].s)) {
      return false;
    }
    return "items" in node ==> node["items"].Obj?;
  }

  method ValidateSchemaNode(re: Engine, schema: JSON) returns (ok: bool)
    requires schema.Obj?
    ensures ok <==> Accepted(re, schema)
    decreases schema
  {
    hide AcceptedKeywords;
    var node := schema.fields;
    ok := ValidateKeywords(re, node);
    if !ok {
      return;
    }
    KeywordObjects(re, node);
    if "properties" in node {
      var props := node["properties"].fields;
      var rest := props.Keys;
      while rest != {}
        invariant rest <= props.Keys
        invariant forall name :: name in props && name !in rest ==> props[name].Obj? && Accepted(re, props[name])
      {
        var name :| name in rest;
        if !props[name].Obj? {
          return false;
        }
        var child := ValidateSchemaNode(re, props[name]);
        if !child {
          return false;
        }
        rest := rest - {name};
      }
    }
    if "items" in node {
      ok := ValidateSchemaNode(re, node["items"]);
    }
  }

  lemma KeywordObjects(re: Engine, node: map<string, JSON>)
    requires AcceptedKeywords(re, node)
    ensures "properties" in node ==> node["properties"].Obj?
    ensures "items" in node ==> node["items"].Obj?
  {
  }

  // ---------------------------------------------------------------- conformance, uncut

  predicate HasType(value: JSON, typeName: string) {
    match value
    case Null => typeName == "null"
    case Bool(_) => typeName == "boolean"
    case Number(x) => typeName == "number" || (typeName == "integer" && Whole(x))
    case Str(_) => typeName == "string"
    case Arr(_) => typeName == "array"
    case Obj(_) => typeName == "object"
  }

  function PropertiesOf(node: map<string, JSON>): map<string, JSON> {
    if "properties" in node && node["properties"].Obj? then node["properties"].fields else map[]
  }

  /* A value is in the limits a schema sets on a number. */
  predicate NumberFits(node: map<string, JSON>, x: real) {
    && ("minimum" in node && node["minimum"].Number? ==> node["minimum"].x <= x)
    && ("maximum" in node && node["maximum"].Number? ==> x <= node["maximum"].x)
  }

  predicate StringFits(re: Engine, node: map<string, JSON>, s: string) {
    && ("minLength" in node && node["minLength"].Number? ==> node["minLength"].x.Floor <= |s|)
    && ("maxLength" in node && node["maxLength"].Number? ==> |s| <= node["maxLength"].x.Floor)
    && ("pattern" in node && node["pattern"].Str? ==> re.matches(node["pattern"].s, s))
  }

  predicate Closed(node: map<string, JSON>) {
    "additionalProperties" in node && node["additionalProperties"] == Bool(false)
  }

  /* What conforms to an accepted schema, with no error count involved. */
  predicate Conforms(re: Engine, schema: JSON, value: JSON)
    requires schema.Obj? && Accepted(re, schema)
    decreases value
  {
    var node := schema.fields;
    && ("type" in node ==> HasType(value, node["type"].s))
    && ("enum" in node ==> value in node["enum"].items)
    && (value.Number? ==> NumberFits(node, value.x))
    && (value.Str? ==> StringFits(re, node, value.s))
    && (value.Arr? && "items" in node ==>
          forall i :: 0 <= i < |value.items| ==> Conforms(re, node["items"], value.items[i]))
    && (value.Obj? ==>
          && ("required" in node ==> forall item :: item in node["required"].items ==> item.s in value.fields)
          && (forall name :: name in PropertiesOf(node) && name in value.fields ==>
                Conforms(re, PropertiesOf(node)[name], value.fields[name]))
          && (Closed(node) ==> value.fields.Keys <= PropertiesOf(node).Keys))
  }

  // ---------------------------------------------------------------- counting every error

  function One(bad: bool): nat {
    if bad then 1 else 0
  }

  function NumberErrors(node: map<string, JSON>, x: real): nat {
    One("minimum" in node && node["minimum"].Number? && x < node["minimum"].x)
    + One("maximum" in node && node["maximum"].Number? && x > node["maximum"].x)
  }

  function StringErrors(re: Engine, node: map<string, JSON>, s: string): nat {
    One("minLength" in node && node["minLength"].Number? && |s| < node["minLength"].x.Floor)
    + One("maxLength" in node && node["maxLength"].Number? && |s| > node["maxLength"].x.Floor)
    + One("pattern" in node && node["pattern"].Str? && !re.matches(node["pattern"].s, s))
  }

  /* The errors of a value itself, its type apart: of its enumeration and of its limits. */
  function ScalarErrors(re: Engine, node: map<string, JSON>, value: JSON): nat {
    One("enum" in node && node["enum"].Arr? && value !in node["enum"].items)
    + (if value.Number? then NumberErrors(node, value.x) else 0)
    + (if value.Str? then StringErrors(re, node, value.s) else 0)
  }

  /* Every required name that is missing counts, as often as it is listed. */
  function MissingErrors(required: seq<JSON>, fields: map<string, JSON>): nat
    requires StringItems(required)
  {
    if required == [] then 0
    else
      var n := |required| - 1;
      MissingErrors(required[..n], fields) + One(required[n].s !in fields)
  }

  function ExtraErrors(node: map<string, JSON>, fields: map<string, JSON>): nat {
    if Closed(node) then |fields.Keys - PropertiesOf(node).Keys| else 0
  }

  function Required(node: map<string, JSON>): seq<JSON> {
    if "required" in node && node["required"].Arr? then node["required"].items else []
  }

  /* All errors of a value, counted without any cutoff. */
  ghost function Errors(re: Engine, schema: JSON, value: JSON): nat
    requires schema.Obj? && Accepted(re, schema)
    decreases value, 1
  {
    var node := schema.fields;
    if "type" in node && !HasType(value, node["type"].s) then 1
    else
      ScalarErrors(re, node, value)
      + (if value.Arr? && "items" in node then ItemErrors(re, node["items"], value, |value.items|) else 0)
      + (if value.Obj? then
           MissingErrors(Required(node), value.fields)
           + PropertyErrors(re, PropertiesOf(node), value, Checked(node, value))
           + ExtraErrors(node, value.fields)
         else 0)
  }

  /* The properties of an object that have a schema. */
  function Checked(node: map<string, JSON>, value: JSON): set<string>
    requires value.Obj?
  {
    PropertiesOf(node).Keys * value.fields.Keys
  }

  ghost function ItemErrors(re: Engine, items: JSON, value: JSON, n: nat): nat
    requires items.Obj? && Accepted(re, items) && value.Arr? && n <= |value.items|
    decreases value, 0, n
  {
    if n == 0 then 0 else ItemErrors(re, items, value, n - 1) + Errors(re, items, value.items[n - 1])
  }

  predicate AcceptedChildren(re: Engine, props: map<string, JSON>) {
    forall name :: name in props ==> props[name].Obj? && Accepted(re, props[name])
  }

  ghost function PropertyErrors(re: Engine, props: map<string, JSON>, value: JSON, names: set<string>): nat
    requires AcceptedChildren(re, props) && value.Obj? && names <= props.Keys * value.fields.Keys
    decreases value, 0, |names|
  {
    if names == {} then 0
    else
      var name :| name in names;
      Errors(re, props[name], value.fields[name]) + PropertyErrors(re, props, value, names - {name})
  }

  /* The sum does not depend on which property is taken first. */
  lemma {:induction false} TakeProperty(re: Engine, props: map<string, JSON>, value: JSON, names: set<string>, name: string)
    requires AcceptedChildren(re, props) && value.Obj? && names <= props.Keys * value.fields.Keys && name in names
    ensures PropertyErrors(re, props, value, names)
         == Errors(re, props[name], value.fields[name]) + PropertyErrors(re, props, value, names - {name})
    decreases |names|
  {
    hide Errors, Accepted;
    var first :| first in names
      && PropertyErrors(re, props, value, names)
         == Errors(re, props[first], value.fields[first]) + PropertyErrors(re, props, value, names - {first});
    if first != name {
      TakeProperty(re, props, value, names - {first}, name);
      TakeProperty(re, props, value, names - {name}, first);
      assert names - {first} - {name} == names - {name} - {first};
    }
  }

  // ---------------------------------------------------------------- no errors, and conformance

  lemma NothingMissing(required: seq<JSON>, fields: map<string, JSON>)
    requires StringItems(required)
    ensures MissingErrors(required, fields) == 0 <==> forall item :: item in required ==> item.s in fields
  {
    NoneMissingBefore(required, fields, |required|);
    assert required[..|required|] == required;
  }

  lemma {:induction false} NoneMissingBefore(required: seq<JSON>, fields: map<string, JSON>, n: nat)
    requires StringItems(required) && n <= |required|
    ensures MissingErrors(required[..n], fields) == 0 <==> forall i :: 0 <= i < n ==> required[i].s in fields
  {
    if n > 0 {
      NoneMissingBefore(required, fields, n - 1);
      MissingSnoc(required, fields, n - 1);
    }
  }

  lemma {:induction false} MissingSnoc(required: seq<JSON>, fields: map<string, JSON>, k: nat)
    requires StringItems(required) && k < |required|
    ensures MissingErrors(required[..k + 1], fields)
         == MissingErrors(required[..k], fields) + One(required[k].s !in fields)
  {
    assert required[..k + 1][..k] == required[..k];
  }

  /* No error is counted exactly when the value conforms. */
  lemma {:induction false} NoErrorsExactly(re: Engine, schema: JSON, value: JSON)
    requires schema.Obj? && Accepted(re, schema)
    ensures Errors(re, schema, value) == 0 <==> Conforms(re, schema, value)
    decreases value, 1
  {
    var node := schema.fields;
    if "type" !in node || HasType(value, node["type"].s) {
      if value.Arr? && "items" in node {
        NoItemErrors(re, node["items"], value, |value.items|);
      }
      if value.Obj? {
        NothingMissing(Required(node), value.fields);
        NoPropertyErrors(re, PropertiesOf(node), value, Checked(node, value));
        NoExtraErrors(node, value.fields);
      }
    }
  }

  lemma NoExtraErrors(node: map<string, JSON>, fields: map<string, JSON>)
    ensures ExtraErrors(node, fields) == 0 <==> (Closed(node) ==> fields.Keys <= PropertiesOf(node).Keys)
  {
    var extra := fields.Keys - PropertiesOf(node).Keys;
    assert |extra| == 0 <==> extra == {};
    if extra == {} {
      assert fields.Keys <= PropertiesOf(node).Keys + extra;
    }
  }

  lemma {:induction false} NoItemErrors(re: Engine, items: JSON, value: JSON, n: nat)
    requires items.Obj? && Accepted(re, items) && value.Arr? && n <= |value.items|
    ensures ItemErrors(re, items, value, n) == 0 <==> forall i :: 0 <= i < n ==> Conforms(re, items, value.items[i])
    decreases value, 0, n
  {
    if n > 0 {
      NoItemErrors(re, items, value, n - 1);
      NoErrorsExactly(re, items, value.items[n - 1]);
    }
  }

  lemma {:induction false} NoPropertyErrors(re: Engine, props: map<string, JSON>, value: JSON, names: set<string>)
    requires AcceptedChildren(re, props) && value.Obj? && names <= props.Keys * value.fields.Keys
    ensures PropertyErrors(re, props, value, names) == 0
       <==> forall name :: name in names ==> Conforms(re, props[name], value.fields[name])
    decreases value, 0, |names|
  {
    hide Errors, Conforms, Accepted;
    if names != {} {
      var name :| name in names;
      TakeProperty(re, props, value, names, name);
      NoPropertyErrors(re, props, value, names - {name});
      NoErrorsExactly(re, props[name], value.fields[name]);
    }
  }

  // ---------------------------------------------------------------- the bounded checker

  datatype Place = Field(name: string) | Index(index: nat)

  datatype Violation = WrongType | NotInEnum | TooSmall | TooLarge | TooShort | TooLong | NoMatch | Missing | NotAllowed

  datatype Problem = Problem(path: seq<Place>, violation: Violation)

  /* A count that is exact as long as it is within the bound, and beyond it when it is not. */
  predicate Counts(found: nat, total: nat) {
    if total <= MAX_VALIDATION_ERRORS then found == total else found > MAX_VALIDATION_ERRORS
  }

  // ---------------------------------------------------------------- which errors

  /* How often a violation of a value itself is due, its type apart. */
  function ScalarTimes(re: Engine, node: map<string, JSON>, value: JSON, violation: Violation): nat {
    match violation
    case NotInEnum => One("enum" in node && node["enum"].Arr? && value !in node["enum"].items)
    case TooSmall => One(value.Number? && "minimum" in node && node["minimum"].Number? && value.x < node["minimum"].x)
    case TooLarge => One(value.Number? && "maximum" in node && node["maximum"].Number? && value.x > node["maximum"].x)
    case TooShort => One(value.Str? && "minLength" in node && node["minLength"].Number? && |value.s| < node["minLength"].x.Floor)
    case TooLong => One(value.Str? && "maxLength" in node && node["maxLength"].Number? && |value.s| > node["maxLength"].x.Floor)
    case NoMatch => One(value.Str? && "pattern" in node && node["pattern"].Str? && !re.matches(node["pattern"].s, value.s))
    case _ => 0
  }

  function Occurrences(required: seq<JSON>, name: string): nat {
    multiset(required)[Str(name)]
  }

  /* How often the problem at a place of a value is due: the schema and the value are followed to the
     place, and the keyword is looked at there. */
  ghost function Due(re: Engine, schema: JSON, value: JSON, place: seq<Place>, violation: Violation): nat
    requires schema.Obj? && Accepted(re, schema)
    decreases |place|
  {
    var node := schema.fields;
    if "type" in node && !HasType(value, node["type"].s) then One(place == [] && violation == WrongType)
    else if place == [] then ScalarTimes(re, node, value, violation)
    else match place[0]
      case Index(i) =>
        if value.Arr? && "items" in node && i < |value.items|
        then Due(re, node["items"], value.items[i], place[1..], violation) else 0
      case Field(name) =>
        if !value.Obj? then 0
        else if name !in value.fields then
          if |place| == 1 && violation == Missing then Occurrences(Required(node), name) else 0
        else if name in PropertiesOf(node) then
          Due(re, PropertiesOf(node)[name], value.fields[name], place[1..], violation)
        else One(|place| == 1 && violation == NotAllowed && Closed(node))
  }

  /* The problems of a list that were not in an earlier one, each as often as it is due; fewer when the
     list has reached its bound. */
  ghost predicate Lists(before: seq<Problem>, after: seq<Problem>, due: Problem -> nat) {
    && before <= after
    && (forall p :: multiset(after)[p] <= multiset(before)[p] + due(p))
    && (|after| <= MAX_VALIDATION_ERRORS ==> forall p :: multiset(after)[p] == multiset(before)[p] + due(p))
  }

  lemma ListsBoth(a: seq<Problem>, b: seq<Problem>, c: seq<Problem>, f: Problem -> nat, g: Problem -> nat,
                  h: Problem -> nat)
    requires Lists(a, b, f) && Lists(b, c, g) && forall p :: h(p) == f(p) + g(p)
    ensures Lists(a, c, h)
  {
    forall p ensures multiset(c)[p] <= multiset(a)[p] + h(p) {
      assert h(p) == f(p) + g(p);
    }
    if |c| <= MAX_VALIDATION_ERRORS {
      forall p ensures multiset(c)[p] == multiset(a)[p] + h(p) {
        assert h(p) == f(p) + g(p);
      }
    }
  }

  lemma ListsSame(a: seq<Problem>, b: seq<Problem>, f: Problem -> nat, h: Problem -> nat)
    requires Lists(a, b, f) && forall p :: h(p) == f(p)
    ensures Lists(a, b, h)
  {
  }

  lemma ListsMore(a: seq<Problem>, b: seq<Problem>, f: Problem -> nat, h: Problem -> nat)
    requires Lists(a, b, f) && |b| > MAX_VALIDATION_ERRORS && forall p :: h(p) >= f(p)
    ensures Lists(a, b, h)
  {
    forall p ensures multiset(b)[p] <= multiset(a)[p] + h(p) {
      assert h(p) >= f(p);
    }
  }

  lemma ListsNothing(a: seq<Problem>, f: Problem -> nat)
    requires |a| > MAX_VALIDATION_ERRORS || forall p :: f(p) == 0
    ensures Lists(a, a, f)
  {
  }

  lemma ListsOne(a: seq<Problem>, problem: Problem, f: Problem -> nat)
    requires forall p :: f(p) == One(p == problem)
    ensures Lists(a, a + [problem], f)
  {
    assert multiset(a + [problem]) == multiset(a) + multiset{problem};
  }

  /* What is due below a path of a value, of the value itself, of its items, of its missing names, of
     its properties and of those it should not have. */
  ghost function DueBelow(re: Engine, schema: JSON, value: JSON, path: seq<Place>, p: Problem): nat
    requires schema.Obj? && Accepted(re, schema)
  {
    if path <= p.path then Due(re, schema, value, p.path[|path|..], p.violation) else 0
  }

  function ScalarDue(re: Engine, node: map<string, JSON>, value: JSON, path: seq<Place>, p: Problem): nat {
    if p.path == path then ScalarTimes(re, node, value, p.violation) else 0
  }

  ghost function ItemsDue(re: Engine, items: JSON, value: JSON, path: seq<Place>, n: nat, p: Problem): nat
    requires items.Obj? && Accepted(re, items) && value.Arr? && n <= |value.items|
  {
    if path < p.path && p.path[|path|].Index? && p.path[|path|].index < n
    then Due(re, items, value.items[p.path[|path|].index], p.path[|path| + 1..], p.violation) else 0
  }

  function MissingDue(required: seq<JSON>, fields: map<string, JSON>, path: seq<Place>, p: Problem): nat {
    if path < p.path && |p.path| == |path| + 1 && p.violation == Missing
       && p.path[|path|].Field? && p.path[|path|].name !in fields
    then Occurrences(required, p.path[|path|].name) else 0
  }

  ghost function PropertiesDue(re: Engine, props: map<string, JSON>, value: JSON, path: seq<Place>, names: set<string>,
                               p: Problem): nat
    requires AcceptedChildren(re, props) && value.Obj? && names <= props.Keys * value.fields.Keys
  {
    if path < p.path && p.path[|path|].Field? && p.path[|path|].name in names
    then Due(re, props[p.path[|path|].name], value.fields[p.path[|path|].name], p.path[|path| + 1..], p.violation) else 0
  }

  function ExtraDue(names: set<string>, path: seq<Place>, p: Problem): nat {
    One(path < p.path && |p.path| == |path| + 1 && p.violation == NotAllowed
        && p.path[|path|].Field? && p.path[|path|].name in names)
  }

  function Extra(node: map<string, JSON>, fields: map<string, JSON>): set<string> {
    if Closed(node) then fields.Keys - PropertiesOf(node).Keys else {}
  }

  ghost function ObjectDue(re: Engine, node: map<string, JSON>, value: JSON, path: seq<Place>, p: Problem): nat
    requires AcceptedChildren(re, PropertiesOf(node)) && value.Obj?
  {
    MissingDue(Required(node), value.fields, path, p)
    + PropertiesDue(re, PropertiesOf(node), value, path, Checked(node, value), p)
    + ExtraDue(Extra(node, value.fields), path, p)
  }

  /* The problems due below a path are those of the value itself and those of its parts. */
  lemma DueParts(re: Engine, schema: JSON, value: JSON, path: seq<Place>, p: Problem)
    requires schema.Obj? && Accepted(re, schema)
    requires "type" in schema.fields ==> HasType(value, schema.fields["type"].s)
    requires "items" in schema.fields ==> schema.fields["items"].Obj? && Accepted(re, schema.fields["items"])
    requires AcceptedChildren(re, PropertiesOf(schema.fields))
    ensures var node := schema.fields;
            DueBelow(re, schema, value, path, p)
            == ScalarDue(re, node, value, path, p)
               + (if value.Arr? && "items" in node then ItemsDue(re, node["items"], value, path, |value.items|, p) else 0)
               + (if value.Obj? then ObjectDue(re, node, value, path, p) else 0)
  {
    hide Accepted, HasType, ScalarTimes, Required, Occurrences, AcceptedKeywords;
    if path < p.path {
      assert p.path[|path|..][1..] == p.path[|path| + 1..];
    }
  }

  lemma WrongTypeDue(re: Engine, schema: JSON, value: JSON, path: seq<Place>, p: Problem)
    requires schema.Obj? && Accepted(re, schema)
    requires "type" in schema.fields && !HasType(value, schema.fields["type"].s)
    ensures DueBelow(re, schema, value, path, p) == One(p == Problem(path, WrongType))
  {
    hide HasType;
    if path <= p.path && p.path[|path|..] == [] {
      assert p.path == path;
    }
  }

  lemma WrongTypeListed(re: Engine, schema: JSON, value: JSON, path: seq<Place>, errs: seq<Problem>)
    requires schema.Obj? && Accepted(re, schema)
    requires "type" in schema.fields && !HasType(value, schema.fields["type"].s)
    ensures Lists(errs, errs + [Problem(path, WrongType)], ForValue(re, schema, value, path))
  {
    hide HasType, Accepted, DueBelow, ForValue, Lists;
    forall p {
      WrongTypeDue(re, schema, value, path, p);
    }
    ListsOne(errs, Problem(path, WrongType), ForValue(re, schema, value, path));
  }

  lemma PropertyListed(re: Engine, props: map<string, JSON>, value: JSON, path: seq<Place>, done: set<string>,
                       name: string, errs: seq<Problem>, before: seq<Problem>, out: seq<Problem>)
    requires AcceptedChildren(re, props) && value.Obj? && done + {name} <= props.Keys * value.fields.Keys
    requires name !in done
    requires Lists(errs, before, ForProperties(re, props, value, path, done))
    requires Lists(before, out, ForValue(re, props[name], value.fields[name], path + [Field(name)]))
    ensures Lists(errs, out, ForProperties(re, props, value, path, done + {name}))
  {
    hide Accepted, Lists, ForProperties, ForValue, DueBelow, PropertiesDue;
    forall p {
      PropertiesStep(re, props, value, path, done, name, p);
    }
    ListsBoth(errs, before, out, ForProperties(re, props, value, path, done),
              ForValue(re, props[name], value.fields[name], path + [Field(name)]),
              ForProperties(re, props, value, path, done + {name}));
  }

  lemma ItemsStep(re: Engine, items: JSON, value: JSON, path: seq<Place>, n: nat, p: Problem)
    requires items.Obj? && Accepted(re, items) && value.Arr? && n < |value.items|
    ensures ItemsDue(re, items, value, path, n + 1, p)
         == ItemsDue(re, items, value, path, n, p)
          + DueBelow(re, items, value.items[n], path + [Index(n)], p)
  {
    hide Accepted, Due;
    if path < p.path {
      assert path + [Index(n)] <= p.path <==> p.path[|path|] == Index(n);
    }
  }

  lemma PropertiesStep(re: Engine, props: map<string, JSON>, value: JSON, path: seq<Place>, names: set<string>,
                       name: string, p: Problem)
    requires AcceptedChildren(re, props) && value.Obj? && names + {name} <= props.Keys * value.fields.Keys
    requires name !in names
    ensures PropertiesDue(re, props, value, path, names + {name}, p)
         == PropertiesDue(re, props, value, path, names, p)
          + DueBelow(re, props[name], value.fields[name], path + [Field(name)], p)
  {
    hide Accepted, Due;
    if path < p.path {
      assert path + [Field(name)] <= p.path <==> p.path[|path|] == Field(name);
    }
  }

  /* The same as functions of the problem. */
  ghost function ForValue(re: Engine, schema: JSON, value: JSON, path: seq<Place>): (due: Problem -> nat)
    requires schema.Obj? && Accepted(re, schema)
    ensures forall p :: due(p) == DueBelow(re, schema, value, path, p)
  {
    hide Accepted;
    p => DueBelow(re, schema, value, path, p)
  }

  ghost function ForScalar(re: Engine, node: map<string, JSON>, value: JSON, path: seq<Place>): (due: Problem -> nat)
    ensures forall p :: due(p) == ScalarDue(re, node, value, path, p)
  {
    p => ScalarDue(re, node, value, path, p)
  }

  ghost function ForItems(re: Engine, items: JSON, value: JSON, path: seq<Place>, n: nat): (due: Problem -> nat)
    requires items.Obj? && Accepted(re, items) && value.Arr? && n <= |value.items|
    ensures forall p :: due(p) == ItemsDue(re, items, value, path, n, p)
  {
    hide Accepted;
    p => ItemsDue(re, items, value, path, n, p)
  }

  ghost function ForMissing(required: seq<JSON>, fields: map<string, JSON>, path: seq<Place>): (due: Problem -> nat)
    ensures forall p :: due(p) == MissingDue(required, fields, path, p)
  {
    p => MissingDue(required, fields, path, p)
  }

  ghost function ForProperties(re: Engine, props: map<string, JSON>, value: JSON, path: seq<Place>, names: set<string>):
      (due: Problem -> nat)
    requires AcceptedChildren(re, props) && value.Obj? && names <= props.Keys * value.fields.Keys
    ensures forall p :: due(p) == PropertiesDue(re, props, value, path, names, p)
  {
    hide Accepted;
    p => PropertiesDue(re, props, value, path, names, p)
  }

  ghost function ForExtra(names: set<string>, path: seq<Place>): (due: Problem -> nat)
    ensures forall p :: due(p) == ExtraDue(names, path, p)
  {
    p => ExtraDue(names, path, p)
  }

  ghost function ForObject(re: Engine, node: map<string, JSON>, value: JSON, path: seq<Place>): (due: Problem -> nat)
    requires AcceptedChildren(re, PropertiesOf(node)) && value.Obj?
    ensures forall p :: due(p) == ObjectDue(re, node, value, path, p)
  {
    hide AcceptedChildren, Accepted;
    p => ObjectDue(re, node, value, path, p)
  }

  ghost function Both(f: Problem -> nat, g: Problem -> nat): (h: Problem -> nat)
    ensures forall p :: h(p) == f(p) + g(p)
  {
    p => f(p) + g(p)
  }

  // ---------------------------------------------------------------- the checks

  /* Adds a problem when there is one. */
  method Report(bad: bool, problem: Problem, errs: seq<Problem>) returns (out: seq<Problem>)
    ensures errs <= out && |out| == |errs| + One(bad)
    ensures forall p :: multiset(out)[p] == multiset(errs)[p] + One(bad && p == problem)
  {
    out := errs;
    if bad {
      out := errs + [problem];
      assert multiset(out) == multiset(errs) + multiset{problem};
    }
  }

  lemma ScalarParts(re: Engine, node: map<string, JSON>, value: JSON, path: seq<Place>)
    ensures ScalarErrors(re, node, value)
         == ScalarTimes(re, node, value, NotInEnum)
          + ScalarTimes(re, node, value, TooSmall) + ScalarTimes(re, node, value, TooLarge)
          + ScalarTimes(re, node, value, TooShort) + ScalarTimes(re, node, value, TooLong)
          + ScalarTimes(re, node, value, NoMatch)
    ensures forall p ::
              ScalarDue(re, node, value, path, p)
              == Once(re, node, value, path, NotInEnum, p)
                 + Once(re, node, value, path, TooSmall, p) + Once(re, node, value, path, TooLarge, p)
                 + Once(re, node, value, path, TooShort, p) + Once(re, node, value, path, TooLong, p)
                 + Once(re, node, value, path, NoMatch, p)
  {
  }

  function Once(re: Engine, node: map<string, JSON>, value: JSON, path: seq<Place>, violation: Violation, p: Problem): nat {
    if p == Problem(path, violation) then ScalarTimes(re, node, value, violation) else 0
  }

  /* The check of one keyword of the value itself. */
  method CheckOne(re: Engine, node: map<string, JSON>, value: JSON, path: seq<Place>, violation: Violation, bad: bool,
                  errs: seq<Problem>) returns (out: seq<Problem>)
    requires ScalarTimes(re, node, value, violation) == One(bad)
    ensures errs <= out && |out| == |errs| + ScalarTimes(re, node, value, violation)
    ensures forall p :: multiset(out)[p] == multiset(errs)[p] + Once(re, node, value, path, violation, p)
  {
    hide ScalarTimes;
    out := errs;
    if bad {
      out := errs + [Problem(path, violation)];
      assert multiset(out) == multiset(errs) + multiset{Problem(path, violation)};
    }
  }

  method CheckLimits(re: Engine, node: map<string, JSON>, value: JSON, path: seq<Place>, errs: seq<Problem>)
    returns (out: seq<Problem>)
    ensures errs <= out
    ensures |out| == |errs| + ScalarTimes(re, node, value, TooSmall) + ScalarTimes(re, node, value, TooLarge)
    ensures forall p ::
              multiset(out)[p]
              == multiset(errs)[p] + Once(re, node, value, path, TooSmall, p) + Once(re, node, value, path, TooLarge, p)
  {
    hide Once;
    var below := value.Number? && "minimum" in node && node["minimum"].Number? && value.x < node["minimum"].x;
    out := CheckOne(re, node, value, path, TooSmall, below, errs);
    var above := value.Number? && "maximum" in node && node["maximum"].Number? && value.x > node["maximum"].x;
    out := CheckOne(re, node, value, path, TooLarge, above, out);
  }

  method CheckText(re: Engine, node: map<string, JSON>, value: JSON, path: seq<Place>, errs: seq<Problem>)
    returns (out: seq<Problem>)
    ensures errs <= out
    ensures |out| == |errs| + ScalarTimes(re, node, value, TooShort) + ScalarTimes(re, node, value, TooLong)
                   + ScalarTimes(re, node, value, NoMatch)
    ensures forall p ::
              multiset(out)[p]
              == multiset(errs)[p] + Once(re, node, value, path, TooShort, p) + Once(re, node, value, path, TooLong, p)
                 + Once(re, node, value, path, NoMatch, p)
  {
    hide Once;
    var short := value.Str? && "minLength" in node && node["minLength"].Number? && |value.s| < node["minLength"].x.Floor;
    out := CheckOne(re, node, value, path, TooShort, short, errs);
    var long := value.Str? && "maxLength" in node && node["maxLength"].Number? && |value.s| > node["maxLength"].x.Floor;
    out := CheckOne(re, node, value, path, TooLong, long, out);
    var foreign := value.Str? && "pattern" in node && node["pattern"].Str? && !re.matches(node["pattern"].s, value.s);
    out := CheckOne(re, node, value, path, NoMatch, foreign, out);
  }

  method CheckScalar(re: Engine, node: map<string, JSON>, value: JSON, path: seq<Place>, errs: seq<Problem>)
    returns (out: seq<Problem>)
    ensures errs <= out && |out| == |errs| + ScalarErrors(re, node, value)
    ensures forall p :: multiset(out)[p] == multiset(errs)[p] + ScalarDue(re, node, value, path, p)
  {
    hide ScalarDue, ScalarErrors, Once;
    ScalarParts(re, node, value, path);
    var unlisted := false;
    if "enum" in node && node["enum"].Arr? {
      var listed := EnumContains(node["enum"].items, value);
      unlisted := !listed;
    }
    out := CheckOne(re, node, value, path, NotInEnum, unlisted, errs);
    hide ScalarTimes;
    out := CheckLimits(re, node, value, path, out);
    out := CheckText(re, node, value, path, out);
  }

  method EnumContains(values: seq<JSON>, candidate: JSON) returns (found: bool)
    ensures found <==> candidate in values
  {
    for i := 0 to |values|
      invariant candidate !in values[..i]
    {
      if values[i] == candidate {
        return true;
      }
    }
    return false;
  }

  lemma MissingStep(required: seq<JSON>, fields: map<string, JSON>, path: seq<Place>, k: nat, p: Problem)
    requires StringItems(required) && k < |required|
    ensures MissingDue(required[..k + 1], fields, path, p)
         == MissingDue(required[..k], fields, path, p)
          + One(required[k].s !in fields && p == Problem(path + [Field(required[k].s)], Missing))
  {
    assert required[..k + 1] == required[..k] + [required[k]] && required[k] == Str(required[k].s);
    assert multiset(required[..k + 1]) == multiset(required[..k]) + multiset{required[k]};
    if path < p.path && |p.path| == |path| + 1 {
      assert p.path == path + [p.path[|path|]];
    }
  }

  method CheckRequired(required: seq<JSON>, fields: map<string, JSON>, path: seq<Place>, errs: seq<Problem>)
    returns (out: seq<Problem>)
    requires StringItems(required)
    ensures errs <= out && |out| == |errs| + MissingErrors(required, fields)
    ensures forall p :: multiset(out)[p] == multiset(errs)[p] + MissingDue(required, fields, path, p)
  {
    hide MissingDue;
    out := errs;
    NothingMissingYet(fields, path);
    assert required[..0] == [];
    for i := 0 to |required|
      invariant errs <= out && |out| == |errs| + MissingErrors(required[..i], fields)
      invariant forall p :: multiset(out)[p] == multiset(errs)[p] + MissingDue(required[..i], fields, path, p)
    {
      MissingSnoc(required, fields, i);
      forall p {
        MissingStep(required, fields, path, i, p);
      }
      out := Report(required[i].s !in fields, Problem(path + [Field(required[i].s)], Missing), out);
    }
    assert required[..|required|] == required;
  }

  lemma NothingMissingYet(fields: map<string, JSON>, path: seq<Place>)
    ensures forall p :: MissingDue([], fields, path, p) == 0
  {
  }

  lemma ExtraStep(names: set<string>, name: string, path: seq<Place>, p: Problem)
    requires name !in names
    ensures ExtraDue(names + {name}, path, p)
         == ExtraDue(names, path, p) + One(p == Problem(path + [Field(name)], NotAllowed))
  {
    if path < p.path && |p.path| == |path| + 1 {
      assert p.path == path + [p.path[|path|]];
    }
  }

  method CheckExtra(node: map<string, JSON>, fields: map<string, JSON>, path: seq<Place>, errs: seq<Problem>)
    returns (out: seq<Problem>)
    ensures errs <= out && |out| == |errs| + ExtraErrors(node, fields)
    ensures forall p :: multiset(out)[p] == multiset(errs)[p] + ExtraDue(Extra(node, fields), path, p)
  {
    hide ExtraDue;
    out := errs;
    NothingExtraYet(path);
    if Closed(node) {
      hide PropertiesOf, Closed;
      out := CheckUnknown(PropertiesOf(node).Keys, fields.Keys, path, errs);
    }
  }

  ghost predicate ListsExtra(errs: seq<Problem>, out: seq<Problem>, extra: set<string>, path: seq<Place>) {
    forall p :: multiset(out)[p] == multiset(errs)[p] + ExtraDue(extra, path, p)
  }

  lemma ExtraReported(errs: seq<Problem>, out: seq<Problem>, extra: set<string>, name: string, path: seq<Place>)
    requires ListsExtra(errs, out, extra, path) && name !in extra
    ensures ListsExtra(errs, out + [Problem(path + [Field(name)], NotAllowed)], extra + {name}, path)
  {
    hide ExtraDue;
    var problem := Problem(path + [Field(name)], NotAllowed);
    assert multiset(out + [problem]) == multiset(out) + multiset{problem};
    forall p
      ensures multiset(out + [problem])[p] == multiset(errs)[p] + ExtraDue(extra + {name}, path, p)
    {
      ExtraStep(extra, name, path, p);
    }
  }

  /* One problem for each name that is not known. */
  method CheckUnknown(known: set<string>, names: set<string>, path: seq<Place>, errs: seq<Problem>)
    returns (out: seq<Problem>)
    ensures errs <= out && |out| == |errs| + |names - known|
    ensures ListsExtra(errs, out, names - known, path)
  {
    hide ExtraDue, ListsExtra;
    out := errs;
    NoExtra(errs, path);
    var rest := names;
    assert names - rest - known == {};
    while rest != {}
      invariant rest <= names && errs <= out
      invariant |out| == |errs| + |names - rest - known|
      invariant ListsExtra(errs, out, names - rest - known, path)
    {
      var name :| name in rest;
      Taken(names, rest, known, name);
      if name !in known {
        ExtraReported(errs, out, names - rest - known, name, path);
        out := out + [Problem(path + [Field(name)], NotAllowed)];
      }
      rest := rest - {name};
    }
    assert names - rest - known == names - known;
  }

  lemma Taken(names: set<string>, rest: set<string>, known: set<string>, name: string)
    requires name in rest && rest <= names
    ensures names - (rest - {name}) - known
         == if name in known then names - rest - known else (names - rest - known) + {name}
    ensures name !in names - rest - known
    ensures |names - (rest - {name}) - known| == |names - rest - known| + One(name !in known)
  {
  }

  lemma NoExtra(errs: seq<Problem>, path: seq<Place>)
    ensures ListsExtra(errs, errs, {}, path)
  {
    NothingExtraYet(path);
  }

  lemma NothingExtraYet(path: seq<Place>)
    ensures forall p :: ExtraDue({}, path, p) == 0
  {
  }

  /* The recursion over a shared error list, with its cutoff. */
  method ValidateValue(re: Engine, schema: JSON, value: JSON, path: seq<Place>, errs: seq<Problem>)
    returns (out: seq<Problem>)
    requires schema.Obj? && Accepted(re, schema)
    ensures errs <= out
    ensures |errs| > MAX_VALIDATION_ERRORS ==> out == errs
    ensures Counts(|out|, |errs| + Errors(re, schema, value))
    ensures Lists(errs, out, ForValue(re, schema, value, path))
    decreases value, 2
  {
    hide ScalarErrors, MissingErrors, ExtraErrors, HasType, Accepted, ForValue, Lists, DueBelow, ScalarDue, ItemsDue,
         ObjectDue, ForScalar, ForItems, ForObject, Both;
    if |errs| > MAX_VALIDATION_ERRORS {
      ListsNothing(errs, ForValue(re, schema, value, path));
      return errs;
    }
    var node := schema.fields;
    AcceptedParts(re, schema);
    if "type" in node && !HasType(value, node["type"].s) {
      WrongTypeListed(re, schema, value, path, errs);
      return errs + [Problem(path, WrongType)];
    }
    forall p {
      DueParts(re, schema, value, path, p);
    }
    out := CheckScalar(re, node, value, path, errs);
    ghost var scalar := out;
    ListsExactly(errs, out, ForScalar(re, node, value, path));
    if value.Arr? && "items" in node {
      out := CheckItems(re, node["items"], value, path, out);
      ListsBoth(errs, scalar, out, ForScalar(re, node, value, path), ForItems(re, node["items"], value, path, |value.items|),
                ForValue(re, schema, value, path));
    } else if value.Obj? {
      out := CheckObject(re, node, value, path, out);
      ListsBoth(errs, scalar, out, ForScalar(re, node, value, path), ForObject(re, node, value, path),
                ForValue(re, schema, value, path));
    } else {
      ListsSame(errs, out, ForScalar(re, node, value, path), ForValue(re, schema, value, path));
    }
  }

  method CheckObject(re: Engine, node: map<string, JSON>, value: JSON, path: seq<Place>, errs: seq<Problem>)
    returns (out: seq<Problem>)
    requires AcceptedChildren(re, PropertiesOf(node)) && value.Obj? && StringItems(Required(node))
    ensures errs <= out
    ensures Counts(|out|, |errs| + MissingErrors(Required(node), value.fields)
                          + PropertyErrors(re, PropertiesOf(node), value, Checked(node, value))
                          + ExtraErrors(node, value.fields))
    ensures Lists(errs, out, ForObject(re, node, value, path))
    decreases value, 1
  {
    hide MissingErrors, ExtraErrors, AcceptedChildren, Accepted, Lists, MissingDue, PropertiesDue, ExtraDue, Both,
         ForMissing, ForProperties, ForExtra, ForObject, PropertyErrors, Extra, PropertiesOf;
    ghost var missing := ForMissing(Required(node), value.fields, path);
    ghost var properties := ForProperties(re, PropertiesOf(node), value, path, Checked(node, value));
    ghost var extra := ForExtra(Extra(node, value.fields), path);
    var first := CheckRequired(Required(node), value.fields, path, errs);
    ListsExactly(errs, first, missing);
    var second := CheckProperties(re, PropertiesOf(node), value, path, Checked(node, value), first);
    ListsBoth(errs, first, second, missing, properties, Both(missing, properties));
    out := CheckExtra(node, value.fields, path, second);
    ListsExactly(second, out, extra);
    ListsBoth(errs, second, out, Both(missing, properties), extra, ForObject(re, node, value, path));
  }

  lemma ListsExactly(a: seq<Problem>, b: seq<Problem>, f: Problem -> nat)
    requires a <= b && forall p :: multiset(b)[p] == multiset(a)[p] + f(p)
    ensures Lists(a, b, f)
  {
  }

  lemma AcceptedParts(re: Engine, schema: JSON)
    requires schema.Obj? && Accepted(re, schema)
    ensures var node := schema.fields;
            && ("type" in node ==> node["type"].Str?)
            && ("items" in node ==> node["items"].Obj? && Accepted(re, node["items"]))
            && StringItems(Required(node))
            && AcceptedChildren(re, PropertiesOf(node))
  {
  }

  method CheckItems(re: Engine, items: JSON, value: JSON, path: seq<Place>, errs: seq<Problem>)
    returns (out: seq<Problem>)
    requires items.Obj? && Accepted(re, items) && value.Arr?
    ensures errs <= out
    ensures Counts(|out|, |errs| + ItemErrors(re, items, value, |value.items|))
    ensures Lists(errs, out, ForItems(re, items, value, path, |value.items|))
    decreases value, 0
  {
    hide Errors, Accepted, Lists, ForItems, ForValue, DueBelow;
    out := errs;
    ListsNothing(errs, ForItems(re, items, value, path, 0));
    for i := 0 to |value.items|
      invariant errs <= out
      invariant Counts(|out|, |errs| + ItemErrors(re, items, value, i))
      invariant Lists(errs, out, ForItems(re, items, value, path, i))
    {
      if |out| > MAX_VALIDATION_ERRORS {
        ItemErrorsGrow(re, items, value, i, |value.items|);
        ListsMore(errs, out, ForItems(re, items, value, path, i), ForItems(re, items, value, path, |value.items|));
        return;
      }
      hide ItemsDue;
      ghost var before := out;
      out := ValidateValue(re, items, value.items[i], path + [Index(i)], out);
      forall p {
        ItemsStep(re, items, value, path, i, p);
      }
      ListsBoth(errs, before, out, ForItems(re, items, value, path, i),
                ForValue(re, items, value.items[i], path + [Index(i)]), ForItems(re, items, value, path, i + 1));
    }
  }

  lemma {:induction false} ItemErrorsGrow(re: Engine, items: JSON, value: JSON, i: nat, n: nat)
    requires items.Obj? && Accepted(re, items) && value.Arr? && i <= n <= |value.items|
    ensures ItemErrors(re, items, value, i) <= ItemErrors(re, items, value, n)
    decreases n
  {
    hide Errors, Accepted;
    if i < n {
      ItemErrorsGrow(re, items, value, i, n - 1);
    }
  }

  /* The properties, in whatever order the map yields them. */
  method CheckProperties(re: Engine, props: map<string, JSON>, value: JSON, path: seq<Place>, names: set<string>, errs: seq<Problem>)
    returns (out: seq<Problem>)
    requires AcceptedChildren(re, props) && value.Obj? && names == props.Keys * value.fields.Keys
    ensures errs <= out
    ensures Counts(|out|, |errs| + PropertyErrors(re, props, value, names))
    ensures Lists(errs, out, ForProperties(re, props, value, path, names))
    decreases value, 0
  {
    hide Errors, Accepted, Lists, ForProperties, ForValue, DueBelow;
    out := errs;
    ListsNothing(errs, ForProperties(re, props, value, path, {}));
    hide PropertiesDue;
    var rest := props.Keys;
    ghost var left, done: set<string> := names, {};
    while rest != {}
      invariant rest <= props.Keys && left == rest * value.fields.Keys && left <= names
      invariant errs <= out && left !! done && left + done == names
      invariant Lists(errs, out, ForProperties(re, props, value, path, done))
      invariant PropertyErrors(re, props, value, left) <= PropertyErrors(re, props, value, names)
      invariant Counts(|out|, |errs| + PropertyErrors(re, props, value, names) - PropertyErrors(re, props, value, left))
    {
      var name :| name in rest;
      if name in value.fields {
        TakeProperty(re, props, value, left, name);
        ghost var before := out;
        out := ValidateValue(re, props[name], value.fields[name], path + [Field(name)], out);
        PropertyListed(re, props, value, path, done, name, errs, before, out);
        left, done := left - {name}, done + {name};
      }
      rest := rest - {name};
      assert left == rest * value.fields.Keys;
    }
    assert left == {} && done == names;
  }

  // ---------------------------------------------------------------- the entry points

  /* `null` decodes into an empty schema, and any other value that is no object is refused. */
  function SchemaOf(document: Option<JSON>): Option<JSON> {
    if document.None? then None
    else if document.value.Null? then Some(Obj(map[]))
    else if document.value.Obj? then document
    else None
  }

  predicate AcceptedDocument(re: Engine, document: Option<JSON>) {
    SchemaOf(document).Some? && Accepted(re, SchemaOf(document).value)
  }

  method ValidateSchemaDocument(re: Engine, document: Option<JSON>) returns (ok: bool)
    ensures ok <==> AcceptedDocument(re, document)
  {
    var schema := SchemaOf(document);
    if schema.None? {
      return false;
    }
    ok := ValidateSchemaNode(re, schema.value);
  }

  datatype Message = Listed(problem: Problem) | NotJSON | Omitted

  datatype ValidationResult = ValidationResult(valid: bool, messages: seq<Message>)

  function Listing(problems: seq<Problem>): (messages: seq<Message>)
    ensures |messages| == |problems|
  {
    seq(|problems|, i requires 0 <= i < |problems| => Listed(problems[i]))
  }

  /* The messages list the problems that are due, each as often as it is due, as far as five; beyond that
     the first five found and a note that there are more. */
  ghost predicate Reported(re: Engine, schema: JSON, value: JSON, messages: seq<Message>)
    requires schema.Obj? && Accepted(re, schema)
  {
    exists problems: seq<Problem> ::
      && messages == Listing(problems) + (if Errors(re, schema, value) > MAX_VALIDATION_ERRORS then [Omitted] else [])
      && (forall p: Problem :: multiset(problems)[p] <= Due(re, schema, value, p.path, p.violation))
      && (Errors(re, schema, value) <= MAX_VALIDATION_ERRORS ==>
            forall p: Problem :: multiset(problems)[p] == Due(re, schema, value, p.path, p.violation))
  }

  lemma PrefixHolds(a: seq<Problem>, b: seq<Problem>, p: Problem)
    requires a <= b
    ensures multiset(a)[p] <= multiset(b)[p]
  {
    assert b == a + b[|a|..];
    assert multiset(b) == multiset(a) + multiset(b[|a|..]);
  }

  lemma ReportedOf(re: Engine, schema: JSON, value: JSON, found: seq<Problem>, problems: seq<Problem>)
    requires schema.Obj? && Accepted(re, schema)
    requires Lists([], found, ForValue(re, schema, value, [])) && Counts(|found|, Errors(re, schema, value))
    requires problems == if |found| > MAX_VALIDATION_ERRORS then found[..MAX_VALIDATION_ERRORS] else found
    ensures Reported(re, schema, value, Listing(problems) + (if |found| > MAX_VALIDATION_ERRORS then [Omitted] else []))
  {
    hide Accepted, Errors, Due, ForValue;
    var none: seq<Place> := [];
    var due := ForValue(re, schema, value, none);
    forall p
      ensures multiset(problems)[p] <= Due(re, schema, value, p.path, p.violation)
      ensures |found| <= MAX_VALIDATION_ERRORS ==>
                multiset(problems)[p] == Due(re, schema, value, p.path, p.violation)
    {
      assert p.path[|none|..] == p.path;
      assert due(p) == Due(re, schema, value, p.path, p.violation);
      PrefixHolds(problems, found, p);
    }
  }

  /* The verdict is conformance, whatever the cutoff leaves out, and the number of messages is
     the number of errors as far as five, then six. An unaccepted schema gives no verdict. */
  method ValidateJSONPayload(re: Engine, document: Option<JSON>, payload: Option<JSON>)
    returns (result: Option<ValidationResult>)
    ensures result.Some? <==> AcceptedDocument(re, document)
    ensures result.Some? && payload.None? ==> result.value == ValidationResult(false, [NotJSON])
    ensures result.Some? && payload.Some? ==>
              && (result.value.valid <==> Conforms(re, SchemaOf(document).value, payload.value))
              && |result.value.messages| == var total := Errors(re, SchemaOf(document).value, payload.value);
                                            if total <= MAX_VALIDATION_ERRORS then total else MAX_VALIDATION_ERRORS + 1
    ensures result.Some? && payload.Some? ==>
              Reported(re, SchemaOf(document).value, payload.value, result.value.messages)
  {
    hide Errors, Conforms, Accepted, Reported, Lists;
    var schema := SchemaOf(document);
    if schema.None? {
      return None;
    }
    var ok := ValidateSchemaNode(re, schema.value);
    if !ok {
      return None;
    }
    if payload.None? {
      return Some(ValidationResult(false, [NotJSON]));
    }
    NoErrorsExactly(re, schema.value, payload.value);
    var errs := ValidateValue(re, schema.value, payload.value, [], []);
    var listed := if |errs| > MAX_VALIDATION_ERRORS then errs[..MAX_VALIDATION_ERRORS] else errs;
    var messages := Listing(listed);
    if |errs| > MAX_VALIDATION_ERRORS {
      messages := messages + [Omitted];
    }
    ReportedOf(re, schema.value, payload.value, errs, listed);
    assert Listing(listed) + [] == Listing(listed);
    return Some(ValidationResult(|messages| == 0, messages));
  }

  // ---------------------------------------------------------------- topic filters

  method TopicFilterMatches(filter: string, topic: string) returns (matched: bool)
    ensures matched == Topics.LevelsMatch(Split(filter, '/'), Split(topic, '/'))
  {
    var filterLevels := Split(filter, '/');
    var topicLevels := Split(topic, '/');
    for i := 0 to |filterLevels|
      invariant i <= |topicLevels|
      invariant forall k :: 0 <= k < i ==> Topics.LevelMatches(filterLevels[k], topicLevels[k])
    {
      var level := filterLevels[i];
      if level == "#" {
        return i == |filterLevels| - 1;
      }
      if i >= |topicLevels| {
        return false;
      }
      if level != "+" && level != topicLevels[i] {
        return false;
      }
    }
    return |filterLevels| == |topicLevels|;
  }

  /* What matches the empty topic, level by level. */
  lemma MatchesEmptyTopic(filter: string)
    ensures Topics.LevelsMatch(Split(filter, '/'), [""]) <==> filter in {"", "+", "#", "/#", "+/#"}
  {
    var levels := Split(filter, '/');
    JoinSplit(filter, '/');
    if Topics.LevelsMatch(levels, [""]) {
      assert |levels| <= 2;
      if |levels| == 1 {
        assert levels == [levels[0]];
      } else {
        assert levels == [levels[0], "#"] && levels[1..] == ["#"];
        assert Topics.LevelMatches(levels[0], "");
        assert Join(levels, "/") == levels[0] + "/" + "#";
        assert "" + "/" + "#" == "/#" && "+" + "/" + "#" == "+/#";
      }
    } else {
      KnownSplits();
    }
  }

  lemma KnownSplits()
    ensures Split("", '/') == [""] && Split("+", '/') == ["+"] && Split("#", '/') == ["#"]
    ensures Split("/#", '/') == ["", "#"] && Split("+/#", '/') == ["+", "#"]
  {
    SplitWhole("+", '/');
    SplitWhole("#", '/');
    assert "" + "/" + "#" == "/#" && "+" + "/" + "#" == "+/#";
    SplitConcat("", "#", '/');
    SplitConcat("+", "#", '/');
  }

  /* The two matchers of the repository differ exactly on the empty topic under the filters
     that match one empty level: there the resolver of the ACL rules matches nothing. */
  lemma MatchersDifferExactly(filter: string, topic: string)
    ensures Topics.LevelsMatch(Split(filter, '/'), Split(topic, '/')) != Topics.Matches(filter, topic)
       <==> topic == "" && filter in {"", "+", "#", "/#", "+/#"}
  {
    KnownSplits();
    MatchesEmptyTopic(filter);
    if filter == "" && topic != "" {
      SplitEmpty(topic, '/');
    }
  }
}
