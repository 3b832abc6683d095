/**
 The schema-to-class generator (dashboard/api/scripts/generate_api_schemas.py): a
 depth-first walk that emits one class per object definition or inline object, and one
 alias per other definition.
 */
module SchemaEmit {
  import opened Annotations
  import opened Collections

  /**
   A schema term, by the branch `type_of` takes for it. Everything that becomes plain
   text (constants, enums, scalars, open objects) is a Scalar; `anyOf` and a list of types
   are both AnyOf. `pair` marks an array with exactly two items.
   */
  datatype Prop =
    | Ref(name: string)
    | AnyOf(options: seq<Prop>)
    | Scalar(text: string)
    | Array(items: Prop, pair: bool)
    | Dict(value: Prop)
    | Object(fields: seq<Field>)

  /** A property; `suffix` is the Pascal-case form of its name. */
  datatype Field = Field(name: string, suffix: string, prop: Prop, required: bool)

  datatype Definition = ClassDef(fields: seq<Field>) | AliasDef(def: Prop)

  const SCALAR_ALIASES := map[
    "Integer" := "int",
    "Count" := "int",
    "TaskResultId" := "int",
    "DateTime" := "datetime",
    "DateString" := "str",
    "JsonObject" := "dict[str, Any]",
    "FlatMetrics" := "dict[str, float | None]"
  ]

  function Size(prop: Prop): nat {
    match prop
    case Ref(_) => 1
    case Scalar(_) => 1
    case Object(_) => 1
    case Array(items, _) => 1 + Size(items)
    case Dict(value) => 1 + Size(value)
    case AnyOf(options) => 1 + Sizes(options)
  }

  function Sizes(options: seq<Prop>): nat {
    if options == [] then 0 else Size(options[|options| - 1]) + Sizes(options[..|options| - 1])
  }

  lemma {:induction false} OptionIsSmaller(options: seq<Prop>, k: nat)
    requires k < |options|
    ensures Size(options[k]) <= Sizes(options)
  {
    if k < |options| - 1 {
      OptionIsSmaller(options[..|options| - 1], k);
    }
  }

  /** The Python type written for a term: a class or alias is written by name. */
  function TypeText(prop: Prop, context: string): string {
    match prop
    case Ref(name) => if name in SCALAR_ALIASES then SCALAR_ALIASES[name] else name
    case AnyOf(options) =>
      var texts := seq(|options|, k requires 0 <= k < |options| => TypeText(options[k], context));
      Joined(WithoutRepeats(texts), " | ")
    case Scalar(text) => text
    case Array(items, _) =>
      if items.Array? && items.pair then
        var inner := TypeText(items.items, context);
        "list[tuple[" + inner + ", " + inner + "]]"
      else
        "list[" + TypeText(items, context + "Item") + "]"
    case Dict(value) => "dict[str, " + TypeText(value, context + "Value") + "]"
    case Object(_) => context
  }

  /** An optional property may also be None, unless "None" already stands between bars. */
  function FieldText(text: string, required: bool): string {
    if required || "None" in SplitPlain(text, " | ") then text else text + " | None"
  }

  function LineOf(name: string, field: Field): (string, string) {
    (field.name, FieldText(TypeText(field.prop, name + field.suffix), field.required))
  }

  function ClassLines(name: string, fields: seq<Field>): seq<(string, string)> {
    seq(|fields|, k requires 0 <= k < |fields| => LineOf(name, fields[k]))
  }

  // ------------------------------------------------------------------ what the texts say

  /** The types of the scalar definitions: counts and ids are integers, and so on. */
  function AliasShape(name: string): Annotation {
    if name == "DateTime" then Annotation.Named("datetime")
    else if name == "DateString" then Annotation.Named("str")
    else if name == "JsonObject" then Applied("dict", [Annotation.Named("str"), Annotation.Named("Any")])
    else if name == "FlatMetrics" then
      Applied("dict", [Annotation.Named("str"), OneOf([Annotation.Named("float"), Annotation.Named("None")])])
    else Annotation.Named("int")
  }

  /** The annotation a term stands for; what a scalar's own text says is taken from it. */
  function Shape(prop: Prop, context: string): Annotation {
    match prop
    case Ref(name) => if name in SCALAR_ALIASES then AliasShape(name) else Annotation.Named(name)
    case AnyOf(options) => OneOfThem(seq(|options|, k requires 0 <= k < |options| => Shape(options[k], context)))
    case Scalar(text) => Read(text)
    case Array(items, _) =>
      if items.Array? && items.pair then
        var inner := Shape(items.items, context);
        Applied("list", [Applied("tuple", [inner, inner])])
      else
        Applied("list", [Shape(items, context + "Item")])
    case Dict(value) => Applied("dict", [Annotation.Named("str"), Shape(value, context + "Value")])
    case Object(_) => Annotation.Named(context)
  }

  /** The alternatives of different types, without repeats of a type. */
  function OneOfThem(types: seq<Annotation>): Annotation {
    if types == [] then Annotation.Named("") else Either(AllAlternatives(WithoutRepeats(types)))
  }

  /** Names are words, and the text of a scalar is one type on its own. */
  predicate Readable(prop: Prop, context: string) {
    match prop
    case Ref(name) => name in SCALAR_ALIASES || Word(name)
    case AnyOf(options) => forall k :: 0 <= k < |options| ==> Readable(options[k], context)
    case Scalar(text) => Whole(text)
    case Array(items, _) =>
      if items.Array? && items.pair then Readable(items.items, context) else Readable(items, context + "Item")
    case Dict(value) => Readable(value, context + "Value")
    case Object(_) => Word(context)
  }

  /** The text written for a term reads back as what the term stands for. */
  lemma {:induction false} TypeReads(prop: Prop, context: string)
    requires Readable(prop, context)
    ensures Whole(TypeText(prop, context)) && Read(TypeText(prop, context)) == Shape(prop, context)
  {
    hide Whole, Read, Word;
    match prop
    case Ref(name) =>
      if name in SCALAR_ALIASES {
        AliasesRead(name);
      } else {
        WordReads(name);
      }
    case AnyOf(options) =>
      var texts := seq(|options|, k requires 0 <= k < |options| => TypeText(options[k], context));
      forall k | 0 <= k < |options| ensures Whole(texts[k]) && Read(texts[k]) == Shape(options[k], context) {
        TypeReads(options[k], context);
      }
      assert ReadAll(texts) == seq(|options|, k requires 0 <= k < |options| => Shape(options[k], context));
      UnionReads(texts);
    case Scalar(_) =>
    case Array(items, _) =>
      if items.Array? && items.pair {
        TypeReads(items.items, context);
        PairsRead(TypeText(items.items, context));
      } else {
        TypeReads(items, context + "Item");
        ListReads(TypeText(items, context + "Item"));
      }
    case Dict(value) =>
      TypeReads(value, context + "Value");
      DictReads(TypeText(value, context + "Value"));
    case Object(_) => WordReads(context);
  }

  lemma UnionReads(texts: seq<string>)
    requires forall k :: 0 <= k < |texts| ==> Whole(texts[k])
    ensures var text := Joined(WithoutRepeats(texts), " | ");
      Whole(text) && Read(text) == OneOfThem(ReadAll(texts))
  {
    hide Whole, Read, Word, Alternatives, AllAlternatives, Joined;
    var kept := WithoutRepeats(texts);
    if texts == [] {
      NothingJoined();
      WordReads("");
    } else {
      KeptAreFirst(texts);
      assert texts[0] in kept;
      assert forall k :: 0 <= k < |kept| ==> kept[k] in texts;
      JoinedReads(kept);
      RepeatsRead(texts);
      ReadIsEither(Joined(kept, BAR));
    }
  }

  lemma NothingJoined()
    ensures Joined([], " | ") == "" && Word("")
  {
  }

  lemma HeadsAreWords()
    ensures Word("list") && Word("tuple") && Word("dict") && Word("str")
  {
  }

  lemma ListReads(text: string)
    requires Whole(text)
    ensures Whole("list[" + text + "]") && Read("list[" + text + "]") == Applied("list", [Read(text)])
  {
    hide Whole, Read, Word;
    HeadsAreWords();
    OneArgument("list", text);
    assert "list[" + text + "]" == Bracketed("list", text);
  }

  lemma PairsRead(text: string)
    requires Whole(text)
    ensures var pairs := "list[tuple[" + text + ", " + text + "]]";
      Whole(pairs) && Read(pairs) == Applied("list", [Applied("tuple", [Read(text), Read(text)])])
  {
    hide Whole, Read, Word;
    HeadsAreWords();
    TwoArguments("tuple", text, text);
    ListReads(Bracketed("tuple", text + ", " + text));
    assert "list[" + Bracketed("tuple", text + ", " + text) + "]" == "list[tuple[" + text + ", " + text + "]]";
  }

  lemma DictReads(text: string)
    requires Whole(text)
    ensures var dict := "dict[str, " + text + "]";
      Whole(dict) && Read(dict) == Applied("dict", [Annotation.Named("str"), Read(text)])
  {
    hide Whole, Read, Word;
    HeadsAreWords();
    WordReads("str");
    TwoArguments("dict", "str", text);
    assert "dict[str, " + text + "]" == Bracketed("dict", "str" + COMMA + text);
  }

  lemma BuiltinReads(text: string)
    requires text in {"int", "str", "Any", "float", "None", "datetime"}
    ensures Whole(text) && Read(text) == Annotation.Named(text)
  {
    hide Whole, Read, Word;
    BuiltinsAreWords();
    WordReads(text);
  }

  lemma BuiltinsAreWords()
    ensures Word("int") && Word("str") && Word("Any") && Word("float") && Word("None") && Word("datetime")
  {
  }

  lemma JsonObjectReads()
    ensures Whole("dict[str, Any]")
    ensures Read("dict[str, Any]") == Applied("dict", [Annotation.Named("str"), Annotation.Named("Any")])
  {
    hide Whole, Read;
    BuiltinReads("Any");
    DictReads("Any");
    assert "dict[str, " + "Any" + "]" == "dict[str, Any]";
  }

  lemma FloatOrNoneReads()
    ensures Whole("float | None")
    ensures Read("float | None") == OneOf([Annotation.Named("float"), Annotation.Named("None")])
  {
    hide Whole, Read, Word, Split, ReadOne;
    BuiltinReads("float");
    BuiltinReads("None");
    BarReads("float", "None");
    ReadIsEither("float | None");
    assert "float" + BAR + "None" == "float | None";
  }

  lemma FlatMetricsReads()
    ensures Whole("dict[str, float | None]")
    ensures Read("dict[str, float | None]") ==
      Applied("dict", [Annotation.Named("str"), OneOf([Annotation.Named("float"), Annotation.Named("None")])])
  {
    hide Whole, Read;
    FloatOrNoneReads();
    DictReads("float | None");
    assert "dict[str, " + "float | None" + "]" == "dict[str, float | None]";
  }

  lemma AliasesRead(name: string)
    requires name in SCALAR_ALIASES
    ensures Whole(SCALAR_ALIASES[name]) && Read(SCALAR_ALIASES[name]) == AliasShape(name)
  {
    hide Whole, Read;
    BuiltinReads("int");
    BuiltinReads("datetime");
    BuiltinReads("str");
    JsonObjectReads();
    FlatMetricsReads();
  }

  predicate AllReadable(name: string, fields: seq<Field>) {
    forall f :: f in fields ==> Readable(f.prop, name + f.suffix)
  }

  predicate AdmitsNone(a: Annotation) {
    Annotation.Named("None") in Alternatives(a)
  }

  /** The text of a required property is that of its type; an optional one's admits None, or has it in brackets. */
  lemma FieldReads(text: string, required: bool)
    requires Whole(text)
    ensures var t := FieldText(text, required);
      && Whole(t)
      && (required ==> t == text)
      && Alternatives(Read(text)) <= Alternatives(Read(t)) <= Alternatives(Read(text)) + [Annotation.Named("None")]
      && (AdmitsNone(Read(t)) <==>
            AdmitsNone(Read(text)) || (!required && "None" !in SplitPlain(text, " | ")))
  {
    hide Whole, Read, SplitPlain, Word;
    BuiltinReads("None");
    BarReads(text, "None");
    assert text + " | None" == text + (BAR + "None") == text + BAR + "None";
  }

  /** An optional list whose items may be None is not itself made optional. */
  lemma NoneInBrackets()
    ensures var text := "list[str | None | int]";
      Whole(text) && FieldText(text, false) == text && !AdmitsNone(Read(text))
  {
    hide Whole, Read, SplitPlain, Word;
    StrOrNoneOrIntIsWhole();
    ListReads("str | None | int");
    assert "list[" + "str | None | int" + "]" == "list[str | None | int]";
    NoneStandsBetweenBars();
  }

  lemma StrOrNoneOrIntIsWhole()
    ensures Whole("str | None | int")
  {
    hide Whole, Read, SplitPlain, Word;
    BuiltinReads("str");
    BuiltinReads("None");
    BuiltinReads("int");
    BarReads("str", "None");
    assert "str" + BAR + "None" == "str | None";
    BarReads("str | None", "int");
    assert "str | None" + BAR + "int" == "str | None | int";
  }

  lemma NoneStandsBetweenBars()
    ensures "None" in SplitPlain("list[str | None | int]", " | ")
  {
    hide Whole, Read, SplitPlain, Word;
    SplitPlainAfter("list[str", "None | int]", " | ");
    assert "list[str" + " | " + "None | int]" == "list[str | None | int]";
    SplitPlainAfter("None", "int]", " | ");
    assert "None" + " | " + "int]" == "None | int]";
  }

  /** The lines give the fields in order, each with a type that reads as its term, and as None too if optional. */
  predicate LinesSay(lines: seq<(string, string)>, name: string, fields: seq<Field>) {
    |lines| == |fields| && forall k :: 0 <= k < |fields| ==>
      LineSays(lines[k], Shape(fields[k].prop, name + fields[k].suffix), fields[k])
  }

  predicate LineSays(line: (string, string), shape: Annotation, field: Field) {
    && line.0 == field.name
    && (field.required ==> Read(line.1) == shape)
    && Alternatives(shape) <= Alternatives(Read(line.1)) <= Alternatives(shape) + [Annotation.Named("None")]
    && (!field.required ==> AdmitsNone(Read(line.1)) || "None" in SplitPlain(line.1, " | "))
  }

  lemma LineReads(name: string, field: Field)
    requires Readable(field.prop, name + field.suffix)
    ensures LineSays(LineOf(name, field), Shape(field.prop, name + field.suffix), field)
  {
    hide TypeText, Readable, Read, Shape, Whole, SplitPlain, Alternatives;
    TypeReads(field.prop, name + field.suffix);
    FieldReads(TypeText(field.prop, name + field.suffix), field.required);
  }

  lemma LinesRead(name: string, fields: seq<Field>)
    requires AllReadable(name, fields)
    ensures LinesSay(ClassLines(name, fields), name, fields)
  {
    hide TypeText, Readable, Read, Shape, LineSays, LineOf;
    forall k | 0 <= k < |fields|
      ensures LineSays(LineOf(name, fields[k]), Shape(fields[k].prop, name + fields[k].suffix), fields[k])
    {
      LineReads(name, fields[k]);
    }
  }

  function OptionTexts(options: seq<Prop>, context: string): (texts: seq<string>)
    ensures |texts| == |options| && forall k :: 0 <= k < |texts| ==> texts[k] == TypeText(options[k], context)
  {
    seq(|options|, k requires 0 <= k < |options| => TypeText(options[k], context))
  }

  /** The parts of a union are the different texts of its options, each at the place of its first occurrence. */
  lemma UnionParts(options: seq<Prop>, context: string)
    ensures exists parts: seq<string>, at: seq<nat> ::
      && FirstPlaces(OptionTexts(options, context), parts, at)
      && (forall text :: text in OptionTexts(options, context) ==> text in parts)
      && TypeText(AnyOf(options), context) == Joined(parts, " | ")
  {
    var texts := OptionTexts(options, context);
    UnionIs(options, context);
    hide *;
    KeptAreFirst(texts);
  }

  lemma UnionIs(options: seq<Prop>, context: string)
    ensures TypeText(AnyOf(options), context) == Joined(WithoutRepeats(OptionTexts(options, context)), " | ")
  {
    hide WithoutRepeats, Joined;
  }

  predicate IsAlias(defs: map<string, Definition>, name: string) {
    name in defs && name !in SCALAR_ALIASES && defs[name].AliasDef?
  }

  /**
   The schema, with what makes a walk over it well defined. `catalog` gives each class name
   its one set of fields (inline names do not collide); `rank` orders the aliases, which
   is possible exactly when no alias refers back to itself without passing through a class.
   */
  datatype Book = Book(
    names: seq<string>,
    defs: map<string, Definition>,
    ghost catalog: map<string, seq<Field>>,
    ghost rank: map<string, nat>,
    ghost top: nat)
  {
    /** References resolve, and inline objects carry the fields their name stands for. */
    ghost predicate Named(prop: Prop, context: string) {
      match prop
      case Ref(name) => name in SCALAR_ALIASES || name in defs
      case AnyOf(options) => forall k :: 0 <= k < |options| ==> Named(options[k], context)
      case Scalar(_) => true
      case Array(items, _) =>
        if items.Array? && items.pair then Named(items.items, context) else Named(items, context + "Item")
      case Dict(value) => Named(value, context + "Value")
      case Object(fields) => context in catalog && catalog[context] == fields
    }

    /** The aliases this term leads to without passing through a class rank below the level. */
    ghost predicate Below(prop: Prop, level: nat) {
      match prop
      case Ref(name) =>
        name !in SCALAR_ALIASES && name in defs && defs[name].AliasDef? ==> name in rank && rank[name] < level
      case AnyOf(options) => forall k :: 0 <= k < |options| ==> Below(options[k], level)
      case Scalar(_) => true
      case Array(items, _) => Below(items, level)
      case Dict(value) => Below(value, level)
      case Object(_) => true
    }

    ghost predicate Valid() {
      Resolved() && Ranked()
    }

    ghost predicate Resolved() {
      && (forall name :: name in defs <==> name in names)
      && (forall name :: name in defs && name !in SCALAR_ALIASES && defs[name].ClassDef? ==>
            name in catalog && catalog[name] == defs[name].fields)
      && (forall name :: IsAlias(defs, name) ==> Named(defs[name].def, name))
      && (forall c :: c in catalog ==> forall f :: f in catalog[c] ==> Named(f.prop, c + f.suffix))
    }

    ghost predicate Ranked() {
      && (forall name :: IsAlias(defs, name) ==>
            name in rank && rank[name] < top && Below(defs[name].def, rank[name]))
      && (forall c :: c in catalog ==> forall f :: f in catalog[c] ==> Below(f.prop, top))
    }

    /** The classes a term mentions, looking through aliases but not into classes. */
    ghost function Mentions(prop: Prop, context: string, level: nat): set<string>
      requires Valid() && Named(prop, context) && Below(prop, level)
      decreases level, prop
    {
      match prop
      case Ref(name) =>
        if name in SCALAR_ALIASES then {}
        else if defs[name].ClassDef? then {name}
        else Mentions(defs[name].def, name, rank[name])
      case AnyOf(options) =>
        set k, d | 0 <= k < |options| && d in Mentions(options[k], context, level) :: d
      case Scalar(_) => {}
      case Array(items, _) =>
        if items.Array? && items.pair then
          assert Below(items, level);
          Mentions(items.items, context, level)
        else Mentions(items, context + "Item", level)
      case Dict(value) => Mentions(value, context + "Value", level)
      case Object(_) => {context}
    }

    /** Class c has a field whose type mentions class d. */
    ghost predicate Uses(c: string, d: string)
      requires Valid()
    {
      c in catalog && exists f :: f in catalog[c] && d in Mentions(f.prop, c + f.suffix, top)
    }

    ghost predicate Path(p: seq<string>)
      requires Valid()
    {
      forall k {:trigger p[k]} :: 0 < k < |p| ==> Uses(p[k - 1], p[k])
    }

    ghost predicate Reaches(c: string, d: string)
      requires Valid()
    {
      exists p :: p != [] && p[0] == c && p[|p| - 1] == d && Path(p)
    }

    /** Each emitted class comes after every class it uses, unless that class leads back to it. */
    ghost predicate Ordered(order: seq<string>)
      requires Valid()
    {
      forall i, d {:trigger order[i], Uses(order[i], d)} ::
        0 <= i < |order| && Uses(order[i], d) ==> d in order[..i] || Reaches(d, order[i])
    }
  }

  // ------------------------------------------------------------------ when aliases can be ranked

  /** The term leads to this alias without passing through a class. */
  ghost predicate Leads(prop: Prop, defs: map<string, Definition>, name: string) {
    match prop
    case Ref(n) => n == name && IsAlias(defs, n)
    case AnyOf(options) => exists k :: 0 <= k < |options| && Leads(options[k], defs, name)
    case Scalar(_) => false
    case Array(items, _) => Leads(items, defs, name)
    case Dict(value) => Leads(value, defs, name)
    case Object(_) => false
  }

  ghost predicate LeadsTo(defs: map<string, Definition>, a: string, c: string) {
    IsAlias(defs, a) && Leads(defs[a].def, defs, c)
  }

  ghost predicate AliasPath(defs: map<string, Definition>, p: seq<string>) {
    forall k {:trigger p[k]} :: 0 < k < |p| ==> LeadsTo(defs, p[k - 1], p[k])
  }

  /** No alias leads back to itself. */
  ghost predicate NoAliasCycle(defs: map<string, Definition>) {
    forall p :: |p| >= 2 && AliasPath(defs, p) ==> p[0] != p[|p| - 1]
  }

  lemma {:induction false} LeadsToAlias(prop: Prop, defs: map<string, Definition>, name: string)
    requires Leads(prop, defs, name)
    ensures IsAlias(defs, name)
  {
    match prop
    case Ref(_) =>
    case AnyOf(options) =>
      var k :| 0 <= k < |options| && Leads(options[k], defs, name);
      LeadsToAlias(options[k], defs, name);
    case Array(items, _) => LeadsToAlias(items, defs, name);
    case Dict(value) => LeadsToAlias(value, defs, name);
  }

  lemma {:induction false} BelowIs(b: Book, prop: Prop, level: nat)
    ensures b.Below(prop, level) <==>
      forall name :: Leads(prop, b.defs, name) ==> name in b.rank && b.rank[name] < level
  {
    match prop
    case Ref(name) =>
      assert IsAlias(b.defs, name) <==> Leads(prop, b.defs, name);
    case AnyOf(options) =>
      forall k | 0 <= k < |options|
        ensures b.Below(options[k], level) <==>
          forall name :: Leads(options[k], b.defs, name) ==> name in b.rank && b.rank[name] < level
      {
        BelowIs(b, options[k], level);
      }
    case Scalar(_) =>
    case Array(items, _) => BelowIs(b, items, level);
    case Dict(value) => BelowIs(b, value, level);
    case Object(_) =>
  }

  lemma {:induction false} NamedIgnoresRank(b: Book, rank: map<string, nat>, top: nat, prop: Prop, context: string)
    ensures b.(rank := rank, top := top).Named(prop, context) <==> b.Named(prop, context)
  {
    match prop
    case Ref(_) =>
    case AnyOf(options) =>
      forall k | 0 <= k < |options|
        ensures b.(rank := rank, top := top).Named(options[k], context) <==> b.Named(options[k], context)
      {
        NamedIgnoresRank(b, rank, top, options[k], context);
      }
    case Scalar(_) =>
    case Array(items, _) =>
      if items.Array? && items.pair {
        NamedIgnoresRank(b, rank, top, items.items, context);
      } else {
        NamedIgnoresRank(b, rank, top, items, context + "Item");
      }
    case Dict(value) => NamedIgnoresRank(b, rank, top, value, context + "Value");
    case Object(_) =>
  }

  lemma {:induction false} PathFalls(b: Book, p: seq<string>)
    requires b.Ranked() && |p| >= 2 && AliasPath(b.defs, p)
    ensures p[0] in b.rank && p[|p| - 1] in b.rank && b.rank[p[|p| - 1]] < b.rank[p[0]]
  {
    var n := |p| - 1;
    assert LeadsTo(b.defs, p[n - 1], p[n]);
    BelowIs(b, b.defs[p[n - 1]].def, b.rank[p[n - 1]]);
    if n > 1 {
      PathFalls(b, p[..n]);
    }
  }

  /** Ranks rule out cycles. */
  lemma RankedHasNoCycle(b: Book)
    requires b.Ranked()
    ensures NoAliasCycle(b.defs)
  {
    forall p | |p| >= 2 && AliasPath(b.defs, p) ensures p[0] != p[|p| - 1] {
      PathFalls(b, p);
    }
  }

  ghost predicate Led(defs: map<string, Definition>, s: set<string>, c: string) {
    exists a :: a in s && LeadsTo(defs, a, c)
  }

  lemma OneIsPath(defs: map<string, Definition>, p: seq<string>)
    requires |p| == 1
    ensures AliasPath(defs, p)
  {
  }

  lemma PathBefore(defs: map<string, Definition>, a: string, q: seq<string>)
    requires q != [] && AliasPath(defs, q) && LeadsTo(defs, a, q[0])
    ensures AliasPath(defs, [a] + q)
  {
    hide LeadsTo;
    var p := [a] + q;
    forall k | 0 < k < |p| ensures LeadsTo(defs, p[k - 1], p[k]) {
      assert p[k] == q[k - 1];
      if k > 1 {
        assert p[k - 1] == q[k - 2];
      }
    }
  }

  /** If every member of s is led to from s, there are paths of any length within s. */
  lemma {:induction false} BackPath(defs: map<string, Definition>, s: set<string>, n: nat) returns (p: seq<string>)
    requires s != {} && forall c :: c in s ==> Led(defs, s, c)
    ensures |p| == n + 1 && AliasPath(defs, p) && forall k :: 0 <= k < |p| ==> p[k] in s
  {
    hide LeadsTo, AliasPath;
    if n == 0 {
      p := [Element(s)];
      OneIsPath(defs, p);
    } else {
      var q := BackPath(defs, s, n - 1);
      assert q[0] in s && Led(defs, s, q[0]);
      var a :| a in s && LeadsTo(defs, a, q[0]);
      PathBefore(defs, a, q);
      p := [a] + q;
    }
  }

  lemma LongPathRepeats(p: seq<string>, s: set<string>)
    requires |p| > |s| && forall k :: 0 <= k < |p| ==> p[k] in s
    ensures !Distinct(p)
  {
    SetOfSize(p);
    SubsetSize(SetOf(p), s);
  }

  lemma PathDistinct(defs: map<string, Definition>, p: seq<string>)
    requires NoAliasCycle(defs) && AliasPath(defs, p)
    ensures Distinct(p)
  {
    hide LeadsTo;
    forall i, j | 0 <= i < j < |p| ensures p[i] != p[j] {
      var part := p[i..j + 1];
      assert AliasPath(defs, part);
      assert part[0] == p[i] && part[|part| - 1] == p[j];
    }
  }

  /** Without cycles, some member of s is not led to from s. */
  lemma SourceExists(defs: map<string, Definition>, s: set<string>) returns (c: string)
    requires NoAliasCycle(defs) && s != {}
    ensures c in s && !Led(defs, s, c)
  {
    hide *;
    if forall c :: c in s ==> Led(defs, s, c) {
      var p := BackPath(defs, s, |s|);
      LongPathRepeats(p, s);
      PathDistinct(defs, p);
    }
    c :| c in s && !Led(defs, s, c);
  }

  lemma {:induction false} RankSet(defs: map<string, Definition>, s: set<string>)
    returns (rank: map<string, nat>, top: nat)
    requires NoAliasCycle(defs)
    ensures rank.Keys == s && forall a :: a in s ==> rank[a] < top
    ensures forall a, c :: a in s && c in s && LeadsTo(defs, a, c) ==> rank[c] < rank[a]
    decreases |s|
  {
    if s == {} {
      rank, top := map[], 0;
    } else {
      var x := SourceExists(defs, s);
      rank, top := RankSet(defs, s - {x});
      rank, top := rank[x := top], top + 1;
    }
  }

  /** Without cycles there are ranks: a resolved schema is then a valid book. */
  lemma RanksExist(b: Book) returns (rank: map<string, nat>, top: nat)
    requires b.Resolved() && NoAliasCycle(b.defs)
    ensures b.(rank := rank, top := top).Valid()
  {
    hide Book.Named, Book.Below, Leads, LeadsTo, NoAliasCycle;
    var aliases := set name | name in b.defs && IsAlias(b.defs, name);
    rank, top := RankSet(b.defs, aliases);
    var b' := b.(rank := rank, top := top);
    forall prop, context ensures b'.Named(prop, context) <==> b.Named(prop, context) {
      NamedIgnoresRank(b, rank, top, prop, context);
    }
    assert b'.Resolved();
    forall a | IsAlias(b.defs, a) ensures a in rank && b'.Below(b.defs[a].def, rank[a]) {
      LevelHolds(b', b.defs[a].def, rank[a], a);
    }
    forall c, f | c in b.catalog && f in b.catalog[c] ensures b'.Below(f.prop, top) {
      TopHolds(b', f.prop);
    }
  }

  lemma LevelHolds(b: Book, prop: Prop, level: nat, a: string)
    requires IsAlias(b.defs, a) && b.defs[a].def == prop && a in b.rank && b.rank[a] == level
    requires forall c :: IsAlias(b.defs, c) ==> c in b.rank
    requires forall c :: c in b.rank && LeadsTo(b.defs, a, c) ==> b.rank[c] < level
    ensures b.Below(prop, level)
  {
    hide Book.Below, Leads;
    forall c | Leads(prop, b.defs, c) ensures c in b.rank && b.rank[c] < level {
      LeadsToAlias(prop, b.defs, c);
      assert LeadsTo(b.defs, a, c);
    }
    BelowIs(b, prop, level);
  }

  lemma TopHolds(b: Book, prop: Prop)
    requires forall c :: IsAlias(b.defs, c) ==> c in b.rank && b.rank[c] < b.top
    ensures b.Below(prop, b.top)
  {
    hide Book.Below, Leads;
    forall c | Leads(prop, b.defs, c) ensures c in b.rank && b.rank[c] < b.top {
      LeadsToAlias(prop, b.defs, c);
    }
    BelowIs(b, prop, b.top);
  }

  // ------------------------------------------------------------------ the walk's state

  /** What happens to a class in a walk: it is entered, and later written. */
  datatype Event = Opened(name: string) | Emitted(name: string)

  /** The classes still open after these events, innermost last. */
  function StackAfter(log: seq<Event>): seq<string> {
    if log == [] then []
    else
      var before, event := StackAfter(log[..|log| - 1]), log[|log| - 1];
      if event.Opened? then before + [event.name]
      else if before == [] then [] else before[..|before| - 1]
  }

  /** The classes written, in order. */
  function Emissions(log: seq<Event>): seq<string> {
    if log == [] then []
    else
      var before, event := Emissions(log[..|log| - 1]), log[|log| - 1];
      if event.Emitted? then before + [event.name] else before
  }

  /** The classes a definition of the schema leads to: itself, or those its alias mentions. */
  ghost function Roots(b: Book, name: string): set<string>
    requires b.Valid()
  {
    if name !in b.defs || name in SCALAR_ALIASES then {}
    else if b.defs[name].ClassDef? then {name}
    else b.Mentions(b.defs[name].def, name, b.rank[name])
  }

  /** The class is entered for some definition, when all that earlier ones lead to is written. */
  ghost predicate InTurn(b: Book, log: seq<Event>, c: string)
    requires b.Valid()
  {
    exists n :: 0 <= n < |b.names| && c in Roots(b, b.names[n]) && RootsWritten(b, log, n)
  }

  ghost predicate RootsWritten(b: Book, log: seq<Event>, n: nat)
    requires b.Valid() && n <= |b.names|
  {
    forall m :: 0 <= m < n ==> Roots(b, b.names[m]) <= SetOf(Emissions(log))
  }

  /**
   A class is entered once, from the innermost open class, which uses it, or in its turn if none is
   open. The innermost open class is written once every class it uses is written or still open.
   */
  ghost predicate EventOk(b: Book, log: seq<Event>, event: Event)
    requires b.Valid()
  {
    var stack, order := StackAfter(log), Emissions(log);
    if event.Opened? then
      && event.name !in stack && event.name !in order
      && (if stack != [] then b.Uses(stack[|stack| - 1], event.name) else InTurn(b, log, event.name))
    else
      && stack != [] && stack[|stack| - 1] == event.name
      && forall d :: b.Uses(event.name, d) ==> d in order || d in stack
  }

  ghost predicate Logged(b: Book, log: seq<Event>)
    requires b.Valid()
  {
    log != [] ==> Logged(b, log[..|log| - 1]) && EventOk(b, log[..|log| - 1], log[|log| - 1])
  }

  /**
   `stack` lists the names in `visiting`, in the order they were opened; `log` is everything that
   happened so far; the definitions before `cursor` are done.
   */
  datatype Walk = Walk(
    classes: map<string, seq<(string, string)>>,
    order: seq<string>,
    aliases: map<string, string>,
    stack: seq<string>,
    log: seq<Event>,
    cursor: nat)
  {
    ghost function Visited(): set<string> {
      classes.Keys + SetOf(stack)
    }
  }

  ghost predicate AliasesOk(b: Book, w: Walk)
    requires b.Valid()
  {
    forall a :: a in w.aliases ==> AliasOk(b, a, w.aliases[a], w.Visited())
  }

  /** The alias is defined, has the text of its definition, and mentions only classes met so far. */
  ghost predicate AliasOk(b: Book, a: string, text: string, visited: set<string>)
    requires b.Valid()
  {
    && a in b.defs && a !in SCALAR_ALIASES && b.defs[a].AliasDef?
    && text == TypeText(b.defs[a].def, a)
    && b.Mentions(b.defs[a].def, a, b.rank[a]) <= visited
  }

  ghost predicate ClassesOk(b: Book, w: Walk)
    requires b.Valid()
  {
    && w.classes.Keys == SetOf(w.order)
    && Distinct(w.order)
    && w.classes.Keys <= b.catalog.Keys
    && (forall c :: c in w.classes ==> w.classes[c] == ClassLines(c, b.catalog[c]))
  }

  ghost predicate StackOk(b: Book, w: Walk)
    requires b.Valid()
  {
    && Distinct(w.stack)
    && SetOf(w.stack) <= b.catalog.Keys
    && SetOf(w.stack) !! w.classes.Keys
  }

  ghost predicate LogOk(b: Book, w: Walk)
    requires b.Valid()
  {
    w.stack == StackAfter(w.log) && w.order == Emissions(w.log) && Logged(b, w.log)
  }

  ghost predicate RootsDone(b: Book, w: Walk)
    requires b.Valid()
  {
    w.cursor <= |b.names| && forall m :: 0 <= m < w.cursor ==> Roots(b, b.names[m]) <= w.Visited()
  }

  ghost predicate Good(b: Book, w: Walk)
    requires b.Valid()
  {
    AliasesOk(b, w) && ClassesOk(b, w) && StackOk(b, w) && LogOk(b, w) && RootsDone(b, w)
  }

  /** What the class about to be entered comes from: the class on top of the stack, or the current definition. */
  ghost predicate Wanted(b: Book, w: Walk, name: string)
    requires b.Valid()
  {
    if w.stack != [] then b.Uses(w.stack[|w.stack| - 1], name)
    else w.cursor < |b.names| && name in Roots(b, b.names[w.cursor])
  }

  /** Every class emitted so far has had all its uses emitted too, or still open. */
  ghost predicate Closed(b: Book, w: Walk)
    requires b.Valid()
  {
    forall c, d :: c in w.classes && b.Uses(c, d) ==> d in w.Visited()
  }

  /** What any call may do to the walk: emit more, and leave the stack as it was. */
  ghost predicate Grew(w: Walk, w': Walk) {
    && w.order <= w'.order
    && w.stack == w'.stack
    && w.log <= w'.log
    && w.cursor == w'.cursor
    && w.Visited() <= w'.Visited()
    && w.aliases.Keys <= w'.aliases.Keys
  }

  lemma LogNext(log: seq<Event>, event: Event)
    ensures StackAfter(log + [event]) ==
      if event.Opened? then StackAfter(log) + [event.name]
      else if StackAfter(log) == [] then [] else StackAfter(log)[..|StackAfter(log)| - 1]
    ensures Emissions(log + [event]) == if event.Emitted? then Emissions(log) + [event.name] else Emissions(log)
  {
    assert (log + [event])[..|log|] == log;
  }

  lemma LoggedNext(b: Book, log: seq<Event>, event: Event)
    requires b.Valid() && Logged(b, log) && EventOk(b, log, event)
    ensures Logged(b, log + [event])
  {
    hide EventOk, Book.Valid;
    assert (log + [event])[..|log|] == log;
  }

  function AfterOpen(w: Walk, name: string): Walk {
    w.(stack := w.stack + [name], log := w.log + [Opened(name)])
  }

  lemma OpenLog(b: Book, w: Walk, name: string)
    requires b.Valid() && LogOk(b, w) && RootsDone(b, w) && w.classes.Keys == SetOf(w.order)
    requires name !in w.Visited() && Wanted(b, w, name)
    ensures LogOk(b, AfterOpen(w, name))
  {
    hide Book.Uses, Book.Valid, Roots, Logged;
    if w.stack == [] {
      assert w.Visited() == SetOf(w.order);
      assert RootsWritten(b, w.log, w.cursor);
      assert InTurn(b, w.log, name);
    }
    assert name !in SetOf(w.stack) && name !in SetOf(w.order);
    LogNext(w.log, Opened(name));
    assert EventOk(b, w.log, Opened(name));
    LoggedNext(b, w.log, Opened(name));
  }

  lemma Open(b: Book, w: Walk, name: string)
    requires b.Valid() && Good(b, w) && Closed(b, w)
    requires name in b.catalog && name !in w.Visited() && Wanted(b, w, name)
    ensures var w' := AfterOpen(w, name);
      Good(b, w') && Closed(b, w') && w'.Visited() == w.Visited() + {name}
  {
    hide Book.Uses, Book.Valid, LogOk, Wanted, Roots;
    OpenLog(b, w, name);
    SetOfAppend(w.stack, name);
  }

  /** The walk after the class on top of the stack has been written. */
  function AfterClose(w: Walk, lines: seq<(string, string)>): Walk
    requires w.stack != []
  {
    var name := w.stack[|w.stack| - 1];
    w.(stack := w.stack[..|w.stack| - 1], classes := w.classes[name := lines], order := w.order + [name],
       log := w.log + [Emitted(name)])
  }

  lemma CloseLog(b: Book, w: Walk, lines: seq<(string, string)>)
    requires b.Valid() && LogOk(b, w) && w.stack != [] && w.classes.Keys == SetOf(w.order)
    requires forall d :: b.Uses(w.stack[|w.stack| - 1], d) ==> d in w.Visited()
    ensures LogOk(b, AfterClose(w, lines))
  {
    hide Book.Uses, Book.Valid, Logged;
    var name := w.stack[|w.stack| - 1];
    var event := Emitted(name);
    forall d | b.Uses(name, d) ensures d in w.order || d in w.stack {
      assert d in w.Visited();
      assert d in SetOf(w.order) || d in SetOf(w.stack);
    }
    LogNext(w.log, event);
    assert EventOk(b, w.log, event);
    LoggedNext(b, w.log, event);
  }

  lemma LastOf(names: seq<string>)
    requires Distinct(names) && names != []
    ensures Distinct(names[..|names| - 1])
    ensures SetOf(names) == SetOf(names[..|names| - 1]) + {names[|names| - 1]}
    ensures names[|names| - 1] !in SetOf(names[..|names| - 1])
  {
    assert names == names[..|names| - 1] + [names[|names| - 1]];
  }

  lemma SetOfAppend(names: seq<string>, name: string)
    ensures SetOf(names + [name]) == SetOf(names) + {name}
  {
  }

  lemma CloseSets(b: Book, w: Walk, lines: seq<(string, string)>)
    requires b.Valid() && StackOk(b, w) && ClassesOk(b, w) && w.stack != []
    ensures StackOk(b, AfterClose(w, lines)) && AfterClose(w, lines).Visited() == w.Visited()
    ensures w.stack[|w.stack| - 1] !in w.classes && w.stack[|w.stack| - 1] in b.catalog
    ensures SetOf(AfterClose(w, lines).order) == SetOf(w.order) + {w.stack[|w.stack| - 1]}
  {
    hide Book.Uses, Book.Valid, Distinct, SetOf;
    var name := w.stack[|w.stack| - 1];
    LastOf(w.stack);
    SetOfAppend(w.order, name);
  }

  lemma Close(b: Book, w: Walk, lines: seq<(string, string)>)
    requires b.Valid() && Good(b, w) && Closed(b, w) && w.stack != []
    requires forall d :: b.Uses(w.stack[|w.stack| - 1], d) ==> d in w.Visited()
    requires lines == ClassLines(w.stack[|w.stack| - 1], b.catalog[w.stack[|w.stack| - 1]])
    ensures var w' := AfterClose(w, lines); Good(b, w') && Closed(b, w') && w'.Visited() == w.Visited()
  {
    hide Book.Uses, Book.Valid, StackOk, LogOk, Walk.Visited, ClassLines, Roots;
    var name := w.stack[|w.stack| - 1];
    var w' := AfterClose(w, lines);
    CloseSets(b, w, lines);
    CloseLog(b, w, lines);
    assert name !in w.order by { assert name !in SetOf(w.order); }
    forall c, d | c in w'.classes && b.Uses(c, d) ensures d in w'.Visited() {
      assert c == name || c in w.classes;
    }
  }

  lemma FieldsOk(b: Book, c: string)
    requires b.Valid() && c in b.catalog
    ensures forall j {:trigger b.catalog[c][j]} :: 0 <= j < |b.catalog[c]| ==>
      var f := b.catalog[c][j];
      && b.Named(f.prop, c + f.suffix) && b.Below(f.prop, b.top)
      && forall d :: d in b.Mentions(f.prop, c + f.suffix, b.top) ==> b.Uses(c, d)
    ensures forall d :: b.Uses(c, d) ==>
      exists j :: 0 <= j < |b.catalog[c]| && d in b.Mentions(b.catalog[c][j].prop, c + b.catalog[c][j].suffix, b.top)
  {
    forall j | 0 <= j < |b.catalog[c]|
      ensures b.Named(b.catalog[c][j].prop, c + b.catalog[c][j].suffix) && b.Below(b.catalog[c][j].prop, b.top)
    {
      assert b.catalog[c][j] in b.catalog[c];
    }
  }

  /**
   What a finished walk has written: each class once, from its own fields; every class
   that a written class or alias mentions; and used classes first, except those that were
   still open, as the log of the walk tells.
   */
  ghost predicate Written(b: Book, w: Walk)
    requires b.Valid()
  {
    && Distinct(w.order)
    && w.classes.Keys == SetOf(w.order)
    && (forall c :: c in w.order ==> c in b.catalog && w.classes[c] == ClassLines(c, b.catalog[c]))
    && (forall c, d :: c in w.order && b.Uses(c, d) ==> d in w.order)
    && (forall a :: a in w.aliases ==>
          && a in b.defs && a !in SCALAR_ALIASES && b.defs[a].AliasDef?
          && w.aliases[a] == TypeText(b.defs[a].def, a)
          && b.Mentions(b.defs[a].def, a, b.rank[a]) <= SetOf(w.order))
    && w.order == Emissions(w.log) && StackAfter(w.log) == [] && Logged(b, w.log)
    && b.Ordered(w.order)
  }

  // ------------------------------------------------------------------ what a log says about the order

  /** Every event of a log is as it should be after the events before it. */
  lemma {:induction false} EventHolds(b: Book, log: seq<Event>, k: nat)
    requires b.Valid() && Logged(b, log) && k < |log|
    ensures EventOk(b, log[..k], log[k])
  {
    hide EventOk, Book.Valid;
    if k < |log| - 1 {
      EventHolds(b, log[..|log| - 1], k);
      assert log[..|log| - 1][..k] == log[..k];
    }
  }

  /**
   Wherever a class is written, each class it uses was written before it, or was still open just
   then.
   */
  lemma {:induction false} EmittedAfterUses(b: Book, log: seq<Event>, i: nat, d: string)
    requires b.Valid() && Logged(b, log) && i < |Emissions(log)| && b.Uses(Emissions(log)[i], d)
    ensures d in Emissions(log)[..i]
         || exists k :: 0 <= k < |log| && log[k] == Emitted(Emissions(log)[i]) && d in StackAfter(log[..k])
  {
    hide Book.Uses, Book.Valid, StackAfter;
    var n := |log| - 1;
    var front := log[..n];
    if i < |Emissions(front)| {
      EmittedAfterUses(b, front, i, d);
      if d !in Emissions(front)[..i] {
        var k :| 0 <= k < n && front[k] == Emitted(Emissions(front)[i]) && d in StackAfter(front[..k]);
        assert front[..k] == log[..k] && log[k] == front[k];
        assert log[k] == Emitted(Emissions(log)[i]) && d in StackAfter(log[..k]);
      } else {
        assert Emissions(log)[..i] == Emissions(front)[..i];
      }
    } else {
      assert log[n] == Emitted(Emissions(log)[i]) && Emissions(log)[..i] == Emissions(front);
    }
  }

  /** Of two open classes, the outer one was entered first. */
  lemma {:induction false} OuterOpenedFirst(log: seq<Event>, p: nat, q: nat)
    requires p < q < |StackAfter(log)|
    ensures exists j, k ::
      (0 <= j < k < |log| && log[j] == Opened(StackAfter(log)[p]) && log[k] == Opened(StackAfter(log)[q]))
  {
    var n := |log| - 1;
    var front := log[..n];
    if q < |StackAfter(front)| {
      OuterOpenedFirst(front, p, q);
      var j, k :|
        0 <= j < k < n && front[j] == Opened(StackAfter(front)[p]) && front[k] == Opened(StackAfter(front)[q]);
      assert log[j] == front[j] && log[k] == front[k];
    } else {
      WasOpened(front, p);
      var j :| 0 <= j < n && front[j] == Opened(StackAfter(front)[p]);
      assert log[j] == front[j] && log[n] == Opened(StackAfter(log)[q]);
    }
  }

  lemma {:induction false} WasOpened(log: seq<Event>, p: nat)
    requires p < |StackAfter(log)|
    ensures exists j :: 0 <= j < |log| && log[j] == Opened(StackAfter(log)[p])
  {
    var n := |log| - 1;
    var front := log[..n];
    if p < |StackAfter(front)| {
      WasOpened(front, p);
      var j :| 0 <= j < n && front[j] == Opened(StackAfter(front)[p]);
      assert log[j] == front[j];
    } else {
      assert log[n] == Opened(StackAfter(log)[p]);
    }
  }

  /** In terms of entries: a used class is written before, is the class itself, or was entered before it. */
  lemma WrittenOrEnteredFirst(b: Book, log: seq<Event>, i: nat, d: string)
    requires b.Valid() && Logged(b, log) && i < |Emissions(log)| && b.Uses(Emissions(log)[i], d)
    ensures d in Emissions(log)[..i] || d == Emissions(log)[i]
         || exists j, k :: 0 <= j < k < |log| && log[j] == Opened(d) && log[k] == Opened(Emissions(log)[i])
  {
    hide Book.Uses, Book.Valid, Emissions, StackAfter, Logged;
    EmittedAfterUses(b, log, i, d);
    var c := Emissions(log)[i];
    if d !in Emissions(log)[..i] && d != c {
      var e :| 0 <= e < |log| && log[e] == Emitted(c) && d in StackAfter(log[..e]);
      EventHolds(b, log, e);
      var stack := StackAfter(log[..e]);
      var p :| 0 <= p < |stack| && stack[p] == d;
      OuterOpenedFirst(log[..e], p, |stack| - 1);
      var j, k :| 0 <= j < k < e && log[..e][j] == Opened(d) && log[..e][k] == Opened(c);
      assert log[j] == Opened(d) && log[k] == Opened(c);
    }
  }

  /** Each open class uses the next one. */
  lemma {:induction false} StackIsPath(b: Book, log: seq<Event>)
    requires b.Valid() && Logged(b, log)
    ensures b.Path(StackAfter(log))
  {
    hide Book.Uses, Book.Valid, Emissions, InTurn;
    if log != [] {
      StackIsPath(b, log[..|log| - 1]);
    }
  }

  lemma TailIsPath(b: Book, p: seq<string>, k: nat)
    requires b.Valid() && b.Path(p) && k < |p|
    ensures b.Path(p[k..])
  {
    hide Book.Uses, Book.Valid;
    var tail := p[k..];
    forall j | 0 < j < |tail| ensures b.Uses(tail[j - 1], tail[j]) {
      assert tail[j] == p[k + j] && tail[j - 1] == p[k + j - 1];
    }
  }

  /** A name on a path leads to the end of it. */
  lemma PathReaches(b: Book, p: seq<string>, d: string)
    requires b.Valid() && b.Path(p) && d in p
    ensures b.Reaches(d, p[|p| - 1])
  {
    hide Book.Uses, Book.Valid, Book.Path;
    var k :| 0 <= k < |p| && p[k] == d;
    TailIsPath(b, p, k);
    var tail := p[k..];
    assert tail[0] == d && tail[|tail| - 1] == p[|p| - 1] && b.Path(tail);
  }

  /** So a class is written before one it uses only if that one leads back to it. */
  lemma LoggedIsOrdered(b: Book, log: seq<Event>)
    requires b.Valid() && Logged(b, log)
    ensures b.Ordered(Emissions(log))
  {
    hide Book.Uses, Book.Valid, Book.Reaches, Emissions, StackAfter, Logged;
    var order := Emissions(log);
    forall i, d | 0 <= i < |order| && b.Uses(order[i], d) ensures d in order[..i] || b.Reaches(d, order[i]) {
      EmittedAfterUses(b, log, i, d);
      if d !in order[..i] {
        var k :| 0 <= k < |log| && log[k] == Emitted(order[i]) && d in StackAfter(log[..k]);
        OpenReaches(b, log, k, d);
      }
    }
  }

  lemma OpenReaches(b: Book, log: seq<Event>, k: nat, d: string)
    requires b.Valid() && Logged(b, log) && k < |log| && log[k].Emitted? && d in StackAfter(log[..k])
    ensures b.Reaches(d, log[k].name)
  {
    hide Book.Uses, Book.Valid, Book.Reaches, Book.Path, Emissions, StackAfter;
    EventHolds(b, log, k);
    LoggedPrefix(b, log, k);
    StackIsPath(b, log[..k]);
    PathReaches(b, StackAfter(log[..k]), d);
  }

  lemma {:induction false} LoggedPrefix(b: Book, log: seq<Event>, k: nat)
    requires b.Valid() && Logged(b, log) && k <= |log|
    ensures Logged(b, log[..k])
  {
    hide EventOk, Book.Valid;
    if k < |log| {
      LoggedPrefix(b, log[..|log| - 1], k);
      assert log[..|log| - 1][..k] == log[..k];
    } else {
      assert log[..k] == log;
    }
  }

  lemma WalkDone(b: Book, w: Walk)
    requires b.Valid() && Good(b, w) && Closed(b, w) && w.stack == []
    ensures Written(b, w)
    ensures forall c :: c in w.classes <==> c in w.order
  {
    hide Book.Uses, Book.Ordered, Book.Mentions, Logged, Roots;
    LoggedIsOrdered(b, w.log);
    assert w.Visited() == w.classes.Keys == SetOf(w.order);
    assert forall c :: c in w.classes.Keys <==> c in w.order;
  }

  // ------------------------------------------------------------------ every name is defined

  /** What the scalars of a term say by themselves, and the words of lists and dictionaries. */
  ghost function Given(prop: Prop): set<string> {
    match prop
    case Ref(name) => if name in SCALAR_ALIASES then Names(AliasShape(name)) else {}
    case AnyOf(options) =>
      if options == [] then {""} else set k, n | 0 <= k < |options| && n in Given(options[k]) :: n
    case Scalar(text) => Names(Read(text))
    case Array(items, _) => {"list", "tuple"} + Given(items)
    case Dict(value) => {"dict", "str"} + Given(value)
    case Object(_) => {}
  }

  /** A name in the annotation of a term is given, or an alias, or a class that the term mentions. */
  lemma {:induction false} NamesAre(b: Book, prop: Prop, context: string, level: nat, n: string)
    requires b.Valid() && b.Named(prop, context) && b.Below(prop, level)
    requires n in Names(Shape(prop, context))
    ensures n in Given(prop) || IsAlias(b.defs, n) || n in b.Mentions(prop, context, level)
  {
    hide Book.Valid, AliasShape, Read;
    match prop
    case Ref(name) =>
      if name !in SCALAR_ALIASES {
        assert Names(Annotation.Named(name)) == {name};
      }
    case AnyOf(options) =>
      if options != [] {
        var k := UnionNames(options, context, n);
        NamesAre(b, options[k], context, level, n);
      }
    case Scalar(_) =>
    case Array(items, _) =>
      if items.Array? && items.pair {
        assert b.Below(items, level);
        PairNames(Shape(items.items, context), n);
        if n !in {"list", "tuple"} {
          NamesAre(b, items.items, context, level, n);
        }
      } else {
        ListNames(Shape(items, context + "Item"), n);
        if n != "list" {
          NamesAre(b, items, context + "Item", level, n);
        }
      }
    case Dict(value) =>
      DictNames(Shape(value, context + "Value"), n);
      if n !in {"dict", "str"} {
        NamesAre(b, value, context + "Value", level, n);
      }
    case Object(_) =>
      assert Names(Annotation.Named(context)) == {context};
  }

  lemma UnionNames(options: seq<Prop>, context: string, n: string) returns (k: nat)
    requires options != [] && n in Names(Shape(AnyOf(options), context))
    ensures k < |options| && n in Names(Shape(options[k], context))
  {
    hide Names, AllAlternatives, Either;
    var types := seq(|options|, k requires 0 <= k < |options| => Shape(options[k], context));
    var kept := WithoutRepeats(types);
    assert Shape(AnyOf(options), context) == Either(AllAlternatives(kept));
    NamesOfEither(AllAlternatives(kept), n);
    NamesOfAll(kept, n);
    var j :| 0 <= j < |kept| && n in Names(kept[j]);
    KeptAreFirst(types);
    assert kept[j] in types;
    k :| 0 <= k < |types| && types[k] == kept[j];
  }

  lemma ListNames(a: Annotation, n: string)
    ensures n in Names(Applied("list", [a])) ==> n == "list" || n in Names(a)
  {
  }

  lemma PairNames(a: Annotation, n: string)
    ensures n in Names(Applied("list", [Applied("tuple", [a, a])])) ==> n in {"list", "tuple"} || n in Names(a)
  {
    ListNames(Applied("tuple", [a, a]), n);
  }

  lemma DictNames(a: Annotation, n: string)
    ensures n in Names(Applied("dict", [Annotation.Named("str"), a])) ==> n in {"dict", "str"} || n in Names(a)
  {
    assert Names(Annotation.Named("str")) == {"str"};
  }

  /** A name in a line of a class is a class it uses, an alias, or given. */
  lemma LineNames(b: Book, c: string, f: Field, n: string)
    requires b.Valid() && c in b.catalog && f in b.catalog[c] && Readable(f.prop, c + f.suffix)
    requires n in Names(Read(LineOf(c, f).1))
    ensures b.Uses(c, n) || IsAlias(b.defs, n) || n in Given(f.prop) + {"None"}
  {
    hide Read, Names, Shape, Given, TypeText, Readable, Whole, SplitPlain, Book.Mentions, Book.Named, Book.Below;
    TypeReads(f.prop, c + f.suffix);
    OptionalNames(TypeText(f.prop, c + f.suffix), f.required, n);
    FieldOk(b, c, f);
    if n in Names(Shape(f.prop, c + f.suffix)) {
      NamesAre(b, f.prop, c + f.suffix, b.top, n);
    }
  }

  lemma OptionalNames(text: string, required: bool, n: string)
    requires Whole(text) && n in Names(Read(FieldText(text, required)))
    ensures n in Names(Read(text)) || n == "None"
  {
    hide Read, Names, Whole, SplitPlain, Alternatives, Either;
    var t := FieldText(text, required);
    FieldReads(text, required);
    var none := [Annotation.Named("None")];
    NamesOfAlternatives(Read(t), n);
    NamesOfAlternatives(Read(text), n);
    NamedInBoth(Alternatives(Read(text)), none, n);
    NamedInPart(Alternatives(Read(t)), Alternatives(Read(text)) + none, n);
    NamedOnce(n);
  }

  lemma NamedInPart(part: seq<Annotation>, all: seq<Annotation>, n: string)
    requires part <= all && NamedIn(n, part)
    ensures NamedIn(n, all)
  {
    hide Names;
  }

  lemma NamedOnce(n: string)
    ensures NamedIn(n, [Annotation.Named("None")]) ==> n == "None"
  {
  }

  lemma FieldOk(b: Book, c: string, f: Field)
    requires b.Valid() && c in b.catalog && f in b.catalog[c]
    ensures b.Named(f.prop, c + f.suffix) && b.Below(f.prop, b.top)
  {
    hide Book.Named, Book.Below;
  }

  /** Every name in what was written is a written class, an alias, or given. */
  lemma EveryNameIsDefined(b: Book, w: Walk)
    requires b.Valid() && Written(b, w)
    requires forall name :: IsAlias(b.defs, name) ==> name in w.aliases
    ensures forall c, f, n :: c in w.order && f in b.catalog[c] && Readable(f.prop, c + f.suffix)
                              && n in Names(Read(LineOf(c, f).1)) ==>
      n in w.order || n in w.aliases || n in Given(f.prop) + {"None"}
    ensures forall a, n :: a in w.aliases && Readable(b.defs[a].def, a) && n in Names(Read(w.aliases[a])) ==>
      n in w.order || n in w.aliases || n in Given(b.defs[a].def)
  {
    hide Names, Read, Shape, Given, TypeText, Readable, LineOf, Book.Uses, Book.Mentions, Book.Ordered, Logged;
    forall c, f, n | c in w.order && f in b.catalog[c] && Readable(f.prop, c + f.suffix)
                     && n in Names(Read(LineOf(c, f).1))
      ensures n in w.order || n in w.aliases || n in Given(f.prop) + {"None"}
    {
      LineNames(b, c, f, n);
    }
    forall a, n | a in w.aliases && Readable(b.defs[a].def, a) && n in Names(Read(w.aliases[a]))
      ensures n in w.order || n in w.aliases || n in Given(b.defs[a].def)
    {
      TypeReads(b.defs[a].def, a);
      AliasDefOk(b, a);
      NamesAre(b, b.defs[a].def, a, b.rank[a], n);
    }
  }

  lemma AliasDefOk(b: Book, a: string)
    requires b.Valid() && IsAlias(b.defs, a)
    ensures a in b.rank && b.Named(b.defs[a].def, a) && b.Below(b.defs[a].def, b.rank[a])
  {
    hide Book.Named, Book.Below;
  }

  lemma AliasKnown(b: Book, w: Walk, name: string)
    requires b.Valid() && Good(b, w) && name in w.aliases
    ensures name in b.defs && name !in SCALAR_ALIASES && b.defs[name].AliasDef?
    ensures b.Mentions(b.defs[name].def, name, b.rank[name]) <= w.Visited()
  {
  }

  lemma AliasAdded(b: Book, w: Walk, name: string)
    requires b.Valid() && Good(b, w) && Closed(b, w)
    requires name in b.defs && name !in SCALAR_ALIASES && b.defs[name].AliasDef?
    requires b.Mentions(b.defs[name].def, name, b.rank[name]) <= w.Visited()
    ensures var w' := w.(aliases := w.aliases[name := TypeText(b.defs[name].def, name)]);
      Good(b, w') && Closed(b, w') && w'.Visited() == w.Visited()
  {
    var w' := w.(aliases := w.aliases[name := TypeText(b.defs[name].def, name)]);
    assert AliasOk(b, name, w'.aliases[name], w.Visited());
    hide Book.Uses, Book.Mentions, Book.Valid, TypeText, ClassesOk, StackOk, LogOk, RootsDone, AliasOk;
    ByOrder(b, w, w');
  }

  lemma ByOrder(b: Book, w: Walk, w': Walk)
    requires b.Valid() && w' == w.(aliases := w'.aliases)
    ensures ClassesOk(b, w) ==> ClassesOk(b, w')
    ensures StackOk(b, w) ==> StackOk(b, w')
    ensures LogOk(b, w) ==> LogOk(b, w')
    ensures RootsDone(b, w) ==> RootsDone(b, w')
  {
    hide Roots, Logged;
  }

  /** With all that the current definition leads to visited, the walk goes on to the next. */
  lemma NextRoot(b: Book, w: Walk)
    requires b.Valid() && Good(b, w) && Closed(b, w)
    requires w.cursor < |b.names| && Roots(b, b.names[w.cursor]) <= w.Visited()
    ensures Good(b, w.(cursor := w.cursor + 1)) && Closed(b, w.(cursor := w.cursor + 1))
  {
    hide Book.Uses, Book.Valid, Roots, AliasOk;
  }

  lemma VisitedIs(w: Walk, visiting: set<string>, name: string)
    requires visiting == SetOf(w.stack)
    ensures name in w.Visited() <==> name in w.classes || name in visiting
    ensures SetOf(w.stack + [name]) == visiting + {name}
    ensures name !in visiting ==> visiting + {name} - {name} == visiting
    ensures w.stack == (w.stack + [name])[..|w.stack|]
  {
  }

  // ------------------------------------------------------------------ the generator

  class Generator {
    const names: seq<string>
    const defs: map<string, Definition>
    var classes: map<string, seq<(string, string)>>
    var order: seq<string>
    var aliases: map<string, string>
    var visiting: set<string>
    ghost const book: Book
    ghost var stack: seq<string>
    ghost var log: seq<Event>
    ghost var cursor: nat

    ghost function Now(): Walk
      reads this
    {
      Walk(classes, order, aliases, stack, log, cursor)
    }

    ghost predicate Valid()
      reads this
    {
      && book.Valid() && names == book.names && defs == book.defs
      && Good(book, Now()) && Closed(book, Now())
      && visiting == SetOf(stack)
    }

    ghost function Unopened(): set<string>
      reads this
    {
      book.catalog.Keys - Now().Visited()
    }

    /** A term met while a class is being written is part of that class, else of the current definition. */
    ghost predicate InTop(mentions: set<string>)
      requires book.Valid()
      reads this
    {
      forall d :: d in mentions ==> Wanted(book, Now(), d)
    }

    constructor (names: seq<string>, defs: map<string, Definition>, ghost book: Book)
      requires book.Valid() && names == book.names && defs == book.defs
      ensures Valid() && this.book == book && this.names == names && this.defs == defs
      ensures order == [] && classes == map[] && aliases == map[] && stack == [] && log == [] && cursor == 0
    {
      this.names, this.defs, this.book := names, defs, book;
      classes, order, aliases, visiting, stack, log, cursor := map[], [], map[], {}, [], [], 0;
    }

    method RefType(name: string, ghost level: nat) returns (text: string)
      requires Valid() && book.Named(Ref(name), "") && book.Below(Ref(name), level)
      requires InTop(book.Mentions(Ref(name), "", level))
      modifies this
      ensures Valid() && Grew(old(Now()), Now())
      ensures text == TypeText(Ref(name), "")
      ensures book.Mentions(Ref(name), "", level) <= Now().Visited()
      decreases Unopened(), level, 1
    {
      if name in SCALAR_ALIASES {
        return SCALAR_ALIASES[name];
      }
      match defs[name]
      case ClassDef(fields) =>
        EmitClass(name, fields, level);
        return name;
      case AliasDef(def) =>
        EmitAlias(name, def);
        return name;
    }

    method EmitAlias(name: string, def: Prop)
      requires Valid() && name in defs && name !in SCALAR_ALIASES && defs[name] == AliasDef(def)
      requires InTop(book.Mentions(def, name, book.rank[name]))
      modifies this
      ensures Valid() && Grew(old(Now()), Now())
      ensures name in aliases && book.Mentions(def, name, book.rank[name]) <= Now().Visited()
      decreases Unopened(), book.rank[name] + 1, 0
    {
      hide Good, Closed, Book.Uses, Walk.Visited;
      if name in aliases {
        AliasKnown(book, Now(), name);
        return;
      }
      var text := TypeOf(def, name, book.rank[name]);
      AliasAdded(book, Now(), name);
      aliases := aliases[name := text];
    }

    method TypeOf(prop: Prop, context: string, ghost level: nat) returns (text: string)
      requires Valid() && book.Named(prop, context) && book.Below(prop, level)
      requires InTop(book.Mentions(prop, context, level))
      modifies this
      ensures Valid() && Grew(old(Now()), Now())
      ensures text == TypeText(prop, context)
      ensures Readable(prop, context) ==> Read(text) == Shape(prop, context)
      ensures book.Mentions(prop, context, level) <= Now().Visited()
      decreases Unopened(), level, 2 * Size(prop) + 1
    {
      hide Good, Closed, Book.Valid, Book.Uses, Walk.Visited, Readable, Read, Shape;
      if Readable(prop, context) {
        TypeReads(prop, context);
      }
      match prop
      case Ref(name) =>
        text := RefType(name, level);
      case AnyOf(options) =>
        text := UnionOf(options, context, level);
      case Scalar(t) =>
        text := t;
      case Array(items, _) =>
        if items.Array? && items.pair {
          assert book.Below(items, level) && Size(items) == 1 + Size(items.items);
          var inner := TypeOf(items.items, context, level);
          text := "list[tuple[" + inner + ", " + inner + "]]";
        } else {
          var inner := TypeOf(items, context + "Item", level);
          text := "list[" + inner + "]";
        }
      case Dict(value) =>
        var inner := TypeOf(value, context + "Value", level);
        text := "dict[str, " + inner + "]";
      case Object(fields) =>
        EmitClass(context, fields, level);
        text := context;
    }

    /** The branches for `anyOf` and for a list of types. */
    method UnionOf(options: seq<Prop>, context: string, ghost level: nat) returns (text: string)
      requires Valid() && book.Named(AnyOf(options), context) && book.Below(AnyOf(options), level)
      requires InTop(book.Mentions(AnyOf(options), context, level))
      modifies this
      ensures Valid() && Grew(old(Now()), Now())
      ensures text == TypeText(AnyOf(options), context)
      ensures book.Mentions(AnyOf(options), context, level) <= Now().Visited()
      decreases Unopened(), level, 2 * Sizes(options) + 2
    {
      hide Good, Closed, Book.Valid, Book.Uses, TypeText, Joined, WithoutRepeats, Readable, Read, Shape;
      var parts := [];
      for k := 0 to |options|
        invariant Valid() && Grew(old(Now()), Now())
        invariant parts == seq(k, j requires 0 <= j < k => TypeText(options[j], context))
        invariant forall j :: 0 <= j < k ==> book.Mentions(options[j], context, level) <= Now().Visited()
      {
        OptionIsSmaller(options, k);
        assert book.Mentions(options[k], context, level) <= book.Mentions(AnyOf(options), context, level);
        var part := TypeOf(options[k], context, level);
        parts := parts + [part];
      }
      assert parts == OptionTexts(options, context);
      UnionIs(options, context);
      text := Joined(WithoutRepeats(parts), " | ");
    }

    /** The lines of an open class, one for each property in order. */
    method FieldLines(name: string, fields: seq<Field>) returns (lines: seq<(string, string)>)
      requires Valid() && name in book.catalog && book.catalog[name] == fields
      requires stack != [] && stack[|stack| - 1] == name
      modifies this
      ensures Valid() && Grew(old(Now()), Now())
      ensures lines == ClassLines(name, fields)
      ensures AllReadable(name, fields) ==> LinesSay(lines, name, fields)
      ensures forall d :: book.Uses(name, d) ==> d in Now().Visited()
      decreases Unopened(), book.top + 1, 0
    {
      hide Good, Closed, Book.Valid, Book.Mentions, Book.Named, Book.Below, Book.Uses, TypeText, Walk.Visited;
      hide AllReadable, LinesSay, Readable, Read, Shape;
      FieldsOk(book, name);
      if AllReadable(name, fields) {
        LinesRead(name, fields);
      }
      lines := [];
      for k := 0 to |fields|
        invariant Valid() && Grew(old(Now()), Now())
        invariant lines ==
          seq(k, j requires 0 <= j < k => LineOf(name, fields[j]))
        invariant forall j {:trigger book.catalog[name][j]} :: 0 <= j < k ==>
          book.Mentions(book.catalog[name][j].prop, name + book.catalog[name][j].suffix, book.top) <= Now().Visited()
      {
        assert fields[k] == book.catalog[name][k];
        var text := TypeOf(fields[k].prop, name + fields[k].suffix, book.top);
        if !fields[k].required && "None" !in SplitPlain(text, " | ") {
          text := text + " | None";
        }
        lines := lines + [(fields[k].name, text)];
      }
    }

    method EmitClass(name: string, fields: seq<Field>, ghost level: nat)
      requires Valid() && name in book.catalog && book.catalog[name] == fields
      requires InTop({name})
      modifies this
      ensures Valid() && Grew(old(Now()), Now())
      ensures name in Now().Visited()
      decreases Unopened(), level, 0
    {
      hide Good, Closed, Book.Valid, Book.Uses, Distinct, TypeText, ClassLines, Wanted;
      hide Walk.Visited, SetOf, StackAfter, Emissions, AllReadable, LinesSay;
      VisitedIs(Now(), visiting, name);
      assert name in {name};
      if name in classes || name in visiting {
        return;
      }
      Open(book, Now(), name);
      visiting := visiting + {name};
      stack, log := stack + [name], log + [Opened(name)];
      var lines := FieldLines(name, fields);
      Close(book, Now(), lines);
      visiting := visiting - {name};
      stack, log := stack[..|stack| - 1], log + [Emitted(name)];
      classes := classes[name := lines];
      order := order + [name];
    }

    /** The body of the loop over the definitions. */
    method EmitDefinition(name: string)
      requires Valid() && stack == [] && cursor < |names| && names[cursor] == name
      modifies this
      ensures Valid() && Grew(old(Now()), Now())
      ensures Roots(book, name) <= Now().Visited()
      ensures name !in SCALAR_ALIASES ==> if defs[name].ClassDef? then name in classes else name in aliases
    {
      hide Good, Closed, Book.Uses, Book.Mentions, StackAfter, Emissions, TypeText;
      if name !in SCALAR_ALIASES {
        match defs[name]
        case ClassDef(fields) => EmitClass(name, fields, 0);
        case AliasDef(def) => EmitAlias(name, def);
      }
    }

    /** Walk every definition, in schema order. */
    method Render()
      requires Valid() && stack == [] && log == [] && cursor == 0 && order == [] && aliases == map[]
      modifies this
      ensures Valid() && visiting == {}
      ensures Written(book, Now())
      // every definition of the schema is there
      ensures forall name :: name in defs && name !in SCALAR_ALIASES ==>
        if defs[name].ClassDef? then name in order else name in aliases
    {
      hide Good, Closed, Written, Book.Uses, Book.Ordered, Book.Mentions, Roots, StackAfter, Emissions, TypeText;
      for k := 0 to |names|
        invariant Valid() && stack == [] && cursor == k
        invariant forall j :: 0 <= j < k && names[j] !in SCALAR_ALIASES ==>
          if defs[names[j]].ClassDef? then names[j] in classes else names[j] in aliases
      {
        EmitDefinition(names[k]);
        NextRoot(book, Now());
        cursor := cursor + 1;
      }
      WalkDone(book, Now());
    }
  }

  /** When no class leads back to itself, the order is topological. */
  lemma AcyclicIsTopological(b: Book, order: seq<string>)
    requires b.Valid() && b.Ordered(order)
    requires forall c, d :: b.Uses(c, d) ==> !b.Reaches(d, c)
    ensures forall i, d :: 0 <= i < |order| && b.Uses(order[i], d) ==> exists j :: 0 <= j < i && order[j] == d
  {
    hide Book.Uses, Book.Reaches, Book.Valid;
    forall i, d | 0 <= i < |order| && b.Uses(order[i], d)
      ensures exists j :: 0 <= j < i && order[j] == d
    {
      assert d in order[..i];
      var j :| 0 <= j < i && order[..i][j] == d;
      assert order[j] == d;
    }
  }

  /** What the log looks like after its first k events. */
  ghost predicate At(log: seq<Event>, k: nat, stack: seq<string>, order: seq<string>) {
    k <= |log| && StackAfter(log[..k]) == stack && Emissions(log[..k]) == order
  }

  ghost predicate OnlyUses(b: Book, c: string, d: string)
    requires b.Valid()
  {
    forall e :: b.Uses(c, e) <==> e == d
  }

  lemma AtStart(log: seq<Event>)
    ensures At(log, 0, [], [])
  {
    assert log[..0] == [];
  }

  lemma AfterEvent(log: seq<Event>, k: nat, stack: seq<string>, order: seq<string>)
    requires k < |log| && At(log, k, stack, order)
    ensures log[k].Opened? ==> At(log, k + 1, stack + [log[k].name], order)
    ensures log[k].Emitted? && stack != [] ==> At(log, k + 1, stack[..|stack| - 1], order + [log[k].name])
  {
    assert log[..k + 1] == log[..k] + [log[k]];
    LogNext(log[..k], log[k]);
  }

  /** If the one class that the innermost open class uses is new, it is entered next. */
  lemma MustOpen(b: Book, log: seq<Event>, k: nat, outer: seq<string>, top: string, order: seq<string>, next: string)
    requires b.Valid() && Logged(b, log) && k < |log| && At(log, k, outer + [top], order)
    requires OnlyUses(b, top, next) && next !in outer + [top] && next !in order
    ensures At(log, k + 1, outer + [top] + [next], order)
  {
    hide Book.Uses, Book.Valid, StackAfter, Emissions, Logged;
    EventHolds(b, log, k);
    AfterEvent(log, k, outer + [top], order);
  }

  /** If it is written or open, the innermost open class is written next. */
  lemma MustEmit(b: Book, log: seq<Event>, k: nat, outer: seq<string>, top: string, order: seq<string>, used: string)
    requires b.Valid() && Logged(b, log) && k < |log| && At(log, k, outer + [top], order)
    requires OnlyUses(b, top, used) && (used in outer + [top] || used in order)
    ensures At(log, k + 1, outer, order + [top])
  {
    hide Book.Uses, Book.Valid, StackAfter, Emissions, Logged;
    EventHolds(b, log, k);
    AfterEvent(log, k, outer + [top], order);
    assert (outer + [top])[..|outer|] == outer;
  }

  /** For example, a cycle of three classes is written from the inside out: last the one it is entered at. */
  lemma CycleOfThree(b: Book, log: seq<Event>, x: string, y: string, z: string)
    requires b.Valid() && Logged(b, log) && |log| >= 6 && log[0] == Opened(x)
    requires x != y && y != z && x != z
    requires OnlyUses(b, x, y) && OnlyUses(b, y, z) && OnlyUses(b, z, x)
    ensures At(log, 6, [], [z, y, x])
  {
    hide *;
    AtStart(log);
    AfterEvent(log, 0, [], []);
    MustOpen(b, log, 1, [], x, [], y);
    assert [] + [x] == [x] && [] + [x] + [y] == [x] + [y];
    MustOpen(b, log, 2, [x], y, [], z);
    assert [x] + [y] + [z] == [x, y] + [z];
    MustEmit(b, log, 3, [x, y], z, [], x);
    assert [x, y] == [x] + [y] && [] + [z] == [z];
    MustEmit(b, log, 4, [x], y, [z], z);
    assert [x] == [] + [x];
    MustEmit(b, log, 5, [], x, [z] + [y], y);
    assert [z] + [y] + [x] == [z, y, x];
  }
}
