/**
 * The source generator that writes `SerializeToNbt` / `DeserializeFromNbt`
 * for classes marked `[NbtSerializableType]`. Roslyn symbols and syntax
 * nodes are plain records here; generated code is a sequence of lines (the
 * `StringBuilder`'s `AppendLine` terminator is not modelled).
 */
module AutoSerializer {
  import opened Wrappers

  /** `TypedConstant.Value`: a string, or anything else (another type, or null). */
  datatype ConstantValue = StringValue(text: string) | OtherValue

  datatype NamedArgument = NamedArgument(key: string, value: ConstantValue)

  /**
   * `AttributeData`: the attribute class's name (absent when the class does
   * not resolve), the attribute's display text, and its arguments.
   */
  datatype AttributeData = AttributeData(
    attributeClass: Option<string>, display: string,
    constructorArguments: seq<ConstantValue>, namedArguments: seq<NamedArgument>)

  /** `IPropertySymbol`: its name, the names of all interfaces its type implements, its attributes. */
  datatype PropertySymbol = PropertySymbol(name: string, typeInterfaces: seq<string>, attributes: seq<AttributeData>)

  /** A member of the class being generated for. */
  datatype MemberSymbol = Property(property: PropertySymbol) | OtherMember(name: string)

  /** The syntax the generator's predicate sees: a class declaration's attribute lists, or any other node. */
  datatype AttributeSyntax = AttributeSyntax(name: string)
  datatype SyntaxNode = ClassDeclaration(attributeLists: seq<seq<AttributeSyntax>>) | OtherNode

  // ---------------------------------------------------------------------------
  // Strings

  /** Ordinal `string.Contains`. */
  predicate Contains(s: string, sub: string)
    decreases |s|
  {
    sub <= s || (|s| > 0 && Contains(s[1..], sub))
  }

  /** An occurrence at position `i` makes `Contains` hold. */
  lemma {:induction false} ContainsAt(s: string, sub: string, i: nat)
    requires i <= |s| && sub <= s[i..]
    ensures Contains(s, sub)
    decreases i
  {
    if i == 0 {
      assert s[i..] == s;
    } else {
      assert s[1..][i - 1..] == s[i..];
      ContainsAt(s[1..], sub, i - 1);
    }
  }

  /** Where `Contains` holds, the substring occurs at some position. */
  lemma {:induction false} ContainsWitness(s: string, sub: string) returns (i: nat)
    requires Contains(s, sub)
    ensures i <= |s| && sub <= s[i..]
    decreases |s|
  {
    if sub <= s {
      i := 0;
      assert s[i..] == s;
    } else {
      var j := ContainsWitness(s[1..], sub);
      assert s[1..][j..] == s[j + 1..];
      i := j + 1;
    }
  }

  lemma ContainsIffOccurs(s: string, sub: string)
    ensures Contains(s, sub) <==> exists i :: 0 <= i <= |s| && sub <= s[i..]
  {
    if Contains(s, sub) {
      var i := ContainsWitness(s, sub);
    }
    if exists i :: 0 <= i <= |s| && sub <= s[i..] {
      var i :| 0 <= i <= |s| && sub <= s[i..];
      ContainsAt(s, sub, i);
    }
  }

  // ---------------------------------------------------------------------------
  // GetNbtPropertyName

  /** The attributes `GetNbtPropertyName` looks for: class name containing "NbtPropertyName". */
  predicate IsPropertyNameAttribute(a: AttributeData) {
    a.attributeClass.Some? && Contains(a.attributeClass.value, "NbtPropertyName")
  }

  /** `FirstOrDefault` over the attributes: the index of the first property-name attribute, or `|attrs|`. */
  function FirstPropertyNameAttribute(attrs: seq<AttributeData>): (i: nat)
    ensures i <= |attrs|
    ensures i < |attrs| ==> IsPropertyNameAttribute(attrs[i])
    ensures forall k :: 0 <= k < i ==> !IsPropertyNameAttribute(attrs[k])
  {
    if attrs == [] then 0
    else if IsPropertyNameAttribute(attrs[0]) then 0
    else 1 + FirstPropertyNameAttribute(attrs[1..])
  }

  /** `FirstOrDefault(v => v.Key == key)`: the index of the first named argument with that key, or `|args|`. */
  function FirstNamed(args: seq<NamedArgument>, key: string): (j: nat)
    ensures j <= |args|
    ensures j < |args| ==> args[j].key == key
    ensures forall k :: 0 <= k < j ==> args[k].key != key
  {
    if args == [] then 0
    else if args[0].key == key then 0
    else 1 + FirstNamed(args[1..], key)
  }

  /**
   * `GetNbtPropertyName`: the string value of the named argument `Name` of
   * the first property-name attribute; otherwise the property's own name.
   * Only named arguments count, so `[NbtPropertyName("x")]` is ignored.
   */
  function GetNbtPropertyName(item: PropertySymbol): (n: string)
    ensures n != item.name ==>
              var i := FirstPropertyNameAttribute(item.attributes);
              i < |item.attributes| &&
              var j := FirstNamed(item.attributes[i].namedArguments, "Name");
              j < |item.attributes[i].namedArguments| && item.attributes[i].namedArguments[j].value == StringValue(n)
  {
    var i := FirstPropertyNameAttribute(item.attributes);
    if i == |item.attributes| then item.name
    else
      var args := item.attributes[i].namedArguments;
      if args == [] then item.name
      else
        var j := FirstNamed(args, "Name");
        if j < |args| && args[j].value.StringValue? then args[j].value.text else item.name
  }

  /**
   * The tag name is the first `Name` string of the first property-name
   * attribute, whatever comes before or after it.
   */
  lemma NamedArgumentWins(item: PropertySymbol, i: nat, j: nat, s: string)
    requires i < |item.attributes| && IsPropertyNameAttribute(item.attributes[i])
    requires forall k :: 0 <= k < i ==> !IsPropertyNameAttribute(item.attributes[k])
    requires j < |item.attributes[i].namedArguments|
    requires item.attributes[i].namedArguments[j] == NamedArgument("Name", StringValue(s))
    requires forall k :: 0 <= k < j ==> item.attributes[i].namedArguments[k].key != "Name"
    ensures GetNbtPropertyName(item) == s
  {
    FirstIsUnique(item.attributes, i);
    FirstNamedIsUnique(item.attributes[i].namedArguments, "Name", j);
  }

  lemma FirstIsUnique(attrs: seq<AttributeData>, i: nat)
    requires i < |attrs| && IsPropertyNameAttribute(attrs[i])
    requires forall k :: 0 <= k < i ==> !IsPropertyNameAttribute(attrs[k])
    ensures FirstPropertyNameAttribute(attrs) == i
  {
  }

  lemma FirstNamedIsUnique(args: seq<NamedArgument>, key: string, j: nat)
    requires j < |args| && args[j].key == key
    requires forall k :: 0 <= k < j ==> args[k].key != key
    ensures FirstNamed(args, key) == j
  {
  }

  /** The three fallbacks to the property's own name. */
  lemma PropertyNameFallbacks(item: PropertySymbol)
    ensures (forall k :: 0 <= k < |item.attributes| ==> !IsPropertyNameAttribute(item.attributes[k]))
            ==> GetNbtPropertyName(item) == item.name
    ensures var i := FirstPropertyNameAttribute(item.attributes);
            i < |item.attributes| && item.attributes[i].namedArguments == [] ==> GetNbtPropertyName(item) == item.name
    ensures var i := FirstPropertyNameAttribute(item.attributes);
            i < |item.attributes| &&
            (forall k :: 0 <= k < |item.attributes[i].namedArguments| && item.attributes[i].namedArguments[k].key == "Name"
               ==> item.attributes[i].namedArguments[k].value.OtherValue?)
            ==> GetNbtPropertyName(item) == item.name
  {
  }

  /** Replacing one attribute's constructor arguments does not change the resolved name. */
  lemma {:induction false} PositionalArgumentsIgnored(item: PropertySymbol, k: nat, ctorArgs: seq<ConstantValue>)
    requires k < |item.attributes|
    ensures var a := item.attributes[k];
            var other := item.(attributes := item.attributes[k := a.(constructorArguments := ctorArgs)]);
            GetNbtPropertyName(other) == GetNbtPropertyName(item)
  {
    var a := item.attributes[k];
    var attrs' := item.attributes[k := a.(constructorArguments := ctorArgs)];
    SameSearch(item.attributes, attrs');
  }

  /** Two attribute lists that agree on everything but constructor arguments are searched alike. */
  lemma {:induction false} SameSearch(attrs: seq<AttributeData>, attrs': seq<AttributeData>)
    requires |attrs| == |attrs'|
    requires forall k :: 0 <= k < |attrs| ==>
               attrs[k].attributeClass == attrs'[k].attributeClass && attrs[k].namedArguments == attrs'[k].namedArguments
    ensures FirstPropertyNameAttribute(attrs) == FirstPropertyNameAttribute(attrs')
  {
    if attrs != [] {
      SameSearch(attrs[1..], attrs'[1..]);
    }
  }

  /** `[NbtPropertyName("RealName")]` on `Name`, as in fNbt.Test/DeserializationTest.cs: the tag is "Name". */
  lemma PositionalRealNameIsIgnored()
    ensures var attr := AttributeData(Some("NbtPropertyName"), "fNbt.Serialization.NbtPropertyName(\"RealName\")",
                                      [StringValue("RealName")], []);
            GetNbtPropertyName(PropertySymbol("Name", [], [attr])) == "Name"
  {
    assert "NbtPropertyName" <= "NbtPropertyName";
  }

  // ---------------------------------------------------------------------------
  // The property filter of `Excute`

  /** `GetAttributes().Any(p => p.ToString().Contains("NotNbtProperty"))`. */
  predicate MarkedNotNbtProperty(attrs: seq<AttributeData>)
    ensures MarkedNotNbtProperty(attrs) <==> exists k :: 0 <= k < |attrs| && Contains(attrs[k].display, "NotNbtProperty")
  {
    attrs != [] && (Contains(attrs[0].display, "NotNbtProperty") || MarkedNotNbtProperty(attrs[1..]))
  }

  predicate Selected(m: MemberSymbol) {
    m.Property? && !MarkedNotNbtProperty(m.property.attributes)
  }

  /** The members `Excute` generates code for: unmarked properties, in member order. */
  function SelectProperties(members: seq<MemberSymbol>): (ps: seq<PropertySymbol>)
    ensures |ps| <= |members|
    ensures forall p :: p in ps <==> Property(p) in members && !MarkedNotNbtProperty(p.attributes)
  {
    if members == [] then []
    else if Selected(members[0]) then [members[0].property] + SelectProperties(members[1..])
    else SelectProperties(members[1..])
  }

  /** Selection keeps member order: selecting from two runs of members selects from each in turn. */
  lemma {:induction false} SelectionKeepsOrder(a: seq<MemberSymbol>, b: seq<MemberSymbol>)
    ensures SelectProperties(a + b) == SelectProperties(a) + SelectProperties(b)
  {
    if a != [] {
      assert (a + b)[1..] == a[1..] + b;
      SelectionKeepsOrder(a[1..], b);
    } else {
      assert a + b == b;
    }
  }

  // ---------------------------------------------------------------------------
  // Generated lines

  /**
   * One line the generators append, by its shape; `Render` gives its exact
   * text. Property names and tag names are spliced in unescaped.
   */
  datatype Line =
    | SerializeSignature | HelperDeclaration | ResultDeclaration | TagDeclaration
    | OwnSerialize(property: string)           // obj = P.SerializeToNbt();
    | HelperSerialize(property: string)        // obj = helper.SerializeToNbt(P);
    | AssignName(tagName: string)              // obj.Name = "N";
    | AddUnterminated | AddTerminated          // result.Add(obj) / result.Add(obj);
    | ReturnResult | CloseMethod
    | DeserializeSignature | CompoundCheck | DeserializerHelperDeclaration
    | CreateNew(property: string)              // P = new();
    | OwnDeserialize(property: string, key: string)      // P.DeserializeFromNbt(nbtTag["K"]);
    | TempDeclaration(property: string)        // var PTemp = P;
    | HelperDeserialize(property: string, key: string)   // helper.DeserializeFromNbt(nbtTag["K"],out PTemp);
    | AssignFromTemp(property: string)         // P = PTemp;

  /**
   * A line's exact text, held as everything before its last character
   * (`Lead`) and that last character (`Final`).
   */
  function Render(l: Line): string {
    Lead(l) + [Final(l)]
  }

  function Lead(l: Line): string {
    match l
    case SerializeSignature => "\t\tpublic NbtTag SerializeToNbt()"
    case HelperDeclaration => "\t\t\tvar helper=new fNbt.Serialization.NbtSerializationHelper()"
    case ResultDeclaration => "\t\t\tvar result = new fNbt.NbtCompound()"
    case TagDeclaration => "\t\t\tfNbt.NbtTag obj"
    case OwnSerialize(p) => "\t\t\tobj = " + p + ".SerializeToNbt()"
    case HelperSerialize(p) => "\t\t\tobj = helper.SerializeToNbt(" + p + ")"
    case AssignName(n) => "\t\t\tobj.Name = \"" + n + "\""
    case AddUnterminated => "\t\t\tresult.Add(obj"
    case AddTerminated => "\t\t\tresult.Add(obj)"
    case ReturnResult => "\t\t\treturn result"
    case CloseMethod => "\t\t"
    case DeserializeSignature => "\t\tpublic void DeserializeFromNbt(NbtTag tag)"
    case CompoundCheck => "\t\t\tif(tag is not NbtCompound nbtTag) throw new System.ArgumentException(\"tag was not a NbtCompound\")"
    case DeserializerHelperDeclaration => "\t\t\tvar helper =new fNbt.Serialization.NbtDeserializationHelper()"
    case CreateNew(p) => "\t\t\t" + p + " = new()"
    case OwnDeserialize(p, k) => "\t\t\t" + p + ".DeserializeFromNbt(nbtTag[\"" + k + "\"])"
    case TempDeclaration(p) => "\t\t\tvar " + p + "Temp = " + p
    case HelperDeserialize(p, k) => "\t\t\thelper.DeserializeFromNbt(nbtTag[\"" + k + "\"],out " + p + "Temp)"
    case AssignFromTemp(p) => "\t\t\t" + p + " = " + p + "Temp"
  }

  function Final(l: Line): char {
    match l
    case SerializeSignature => '{'
    case DeserializeSignature => '{'
    case CloseMethod => '}'
    case AddUnterminated => ')'
    case _ => ';'
  }

  /** A rendered statement needs a terminating semicolon. */
  predicate Terminated(text: string) {
    |text| > 0 && text[|text| - 1] == ';'
  }

  predicate IsStatement(l: Line) {
    !(l.SerializeSignature? || l.DeserializeSignature? || l.CloseMethod?)
  }

  /**
   * Every statement line renders with its semicolon except `result.Add(obj)`
   * of the own-serializer branch; the signatures and the closing brace carry none.
   */
  lemma TerminatedIff(l: Line)
    ensures Terminated(Render(l)) <==> IsStatement(l) && l != AddUnterminated
  {
    RenderTerminated(l);
    FinalSemicolon(l);
  }

  lemma RenderTerminated(l: Line)
    ensures Terminated(Render(l)) <==> Final(l) == ';'
  {
    EndsWith(Lead(l), Final(l));
  }

  lemma FinalSemicolon(l: Line)
    ensures Final(l) == ';' <==> IsStatement(l) && l != AddUnterminated
  {
  }

  lemma EndsWith(lead: string, final: char)
    ensures Terminated(lead + [final]) <==> final == ';'
  {
    assert (lead + [final])[|lead|] == final;
  }

  // ---------------------------------------------------------------------------
  // GetSerialization

  predicate Implements(p: PropertySymbol, iface: string) {
    iface in p.typeInterfaces
  }

  const SerializeHeader: seq<Line> := [SerializeSignature, HelperDeclaration, ResultDeclaration, TagDeclaration]
  const SerializeFooter: seq<Line> := [ReturnResult, CloseMethod]

  /**
   * The three lines the generator writes for one property: produce its tag
   * (its own `SerializeToNbt()` for an `INbtSerializableType`, the helper
   * otherwise), name it with the resolved name, add it to the result. On the
   * own-serializer branch the `Add` has no semicolon.
   */
  function SerializationBlock(p: PropertySymbol): (b: seq<Line>)
    ensures |b| == 3 && b[1] == AssignName(GetNbtPropertyName(p))
    ensures b[0] == (if Implements(p, "INbtSerializableType") then OwnSerialize(p.name) else HelperSerialize(p.name))
  {
    var propertyName := GetNbtPropertyName(p);
    if Implements(p, "INbtSerializableType") then [OwnSerialize(p.name), AssignName(propertyName), AddUnterminated]
    else [HelperSerialize(p.name), AssignName(propertyName), AddTerminated]
  }

  /** The block the generator evidently means: the same two first lines, then a terminated `Add`. */
  function CorrectedSerializationBlock(p: PropertySymbol): (b: seq<Line>)
    ensures |b| == 3 && b[..2] == SerializationBlock(p)[..2] && b[2] == AddTerminated
  {
    var propertyName := GetNbtPropertyName(p);
    if Implements(p, "INbtSerializableType") then [OwnSerialize(p.name), AssignName(propertyName), AddTerminated]
    else [HelperSerialize(p.name), AssignName(propertyName), AddTerminated]
  }

  /** The written block, or the corrected one. */
  function BlockOf(p: PropertySymbol, corrected: bool): seq<Line> {
    if corrected then CorrectedSerializationBlock(p) else SerializationBlock(p)
  }

  /** Consecutive blocks of lines, joined in order. */
  function Flatten(bs: seq<seq<Line>>): seq<Line> {
    if bs == [] then [] else Flatten(bs[..|bs| - 1]) + bs[|bs| - 1]
  }

  /** One block per property, in order. */
  function Blocks(ps: seq<PropertySymbol>, corrected: bool): (bs: seq<seq<Line>>)
    ensures |bs| == |ps|
    ensures forall i :: 0 <= i < |ps| ==> bs[i] == BlockOf(ps[i], corrected) && |bs[i]| == 3
  {
    seq(|ps|, i requires 0 <= i < |ps| => BlockOf(ps[i], corrected))
  }

  /** The property lines of the method: one block per property, in order. */
  function SerializationBody(ps: seq<PropertySymbol>, corrected: bool): seq<Line> {
    Flatten(Blocks(ps, corrected))
  }

  /** The `SerializeToNbt` method the generator writes, line by line. */
  function SerializationText(ps: seq<PropertySymbol>): seq<Line> {
    SerializeHeader + SerializationBody(ps, false) + SerializeFooter
  }

  /** The same method with every `Add` terminated. */
  function CorrectedSerializationText(ps: seq<PropertySymbol>): seq<Line> {
    SerializeHeader + SerializationBody(ps, true) + SerializeFooter
  }

  lemma SerializationBodyStep(ps: seq<PropertySymbol>, i: nat)
    requires i < |ps|
    ensures SerializationBody(ps[..i + 1], false) == SerializationBody(ps[..i], false) + SerializationBlock(ps[i])
  {
    var bs := Blocks(ps[..i + 1], false);
    assert bs[..i] == Blocks(ps[..i], false);
    assert bs[i] == SerializationBlock(ps[i]);
  }

  /** One pass of `GetSerialization`'s loop: the three lines for `item`. */
  method AppendSerialization(sb: seq<Line>, item: PropertySymbol) returns (sb': seq<Line>)
    ensures sb' == sb + SerializationBlock(item)
  {
    var propertyName := GetNbtPropertyName(item);
    if Implements(item, "INbtSerializableType") {
      sb' := sb + [OwnSerialize(item.name)];
      sb' := sb' + [AssignName(propertyName)];
      sb' := sb' + [AddUnterminated];
      return;
    }
    sb' := sb + [HelperSerialize(item.name)];
    sb' := sb' + [AssignName(propertyName)];
    sb' := sb' + [AddTerminated];
  }

  /** `GetSerialization`: the header, three lines per property, the return. */
  method GetSerialization(ps: seq<PropertySymbol>) returns (sb: seq<Line>)
    ensures sb == SerializationText(ps)
  {
    sb := SerializeHeader;
    var i := 0;
    while i < |ps|
      invariant i <= |ps| && sb == SerializeHeader + SerializationBody(ps[..i], false)
    {
      var sb' := AppendSerialization(sb, ps[i]);
      SerializationPrefixStep(ps, i, sb, sb');
      sb := sb';
      i := i + 1;
    }
    SerializationFinish(ps, sb);
    sb := sb + SerializeFooter;
  }

  lemma SerializationPrefixStep(ps: seq<PropertySymbol>, i: nat, sb: seq<Line>, sb': seq<Line>)
    requires i < |ps| && sb == SerializeHeader + SerializationBody(ps[..i], false)
    requires sb' == sb + SerializationBlock(ps[i])
    ensures sb' == SerializeHeader + SerializationBody(ps[..i + 1], false)
  {
    SerializationBodyStep(ps, i);
    AppendStep(SerializeHeader, SerializationBody(ps[..i], false), SerializationBlock(ps[i]),
               SerializationBody(ps[..i + 1], false), sb, sb');
  }

  lemma SerializationFinish(ps: seq<PropertySymbol>, sb: seq<Line>)
    requires sb == SerializeHeader + SerializationBody(ps[..|ps|], false)
    ensures sb + SerializeFooter == SerializationText(ps)
  {
    assert ps[..|ps|] == ps;
  }

  lemma {:induction false} FlattenLength(bs: seq<seq<Line>>)
    requires forall j :: 0 <= j < |bs| ==> |bs[j]| == 3
    ensures |Flatten(bs)| == 3 * |bs|
    decreases |bs|
  {
    if bs != [] {
      FlattenLength(bs[..|bs| - 1]);
    }
  }

  /** Line `k` of block `i` is line `3 * i + k` of the joined blocks. */
  lemma {:induction false} FlattenAt(bs: seq<seq<Line>>, i: nat, k: nat)
    requires forall j :: 0 <= j < |bs| ==> |bs[j]| == 3
    requires i < |bs| && k < 3
    ensures 3 * i + k < |Flatten(bs)| && Flatten(bs)[3 * i + k] == bs[i][k]
    decreases |bs|
  {
    var init := bs[..|bs| - 1];
    FlattenLength(init);
    FlattenLength(bs);
    if i < |bs| - 1 {
      FlattenAt(init, i, k);
    }
  }

  lemma SerializationBodyLength(ps: seq<PropertySymbol>, corrected: bool)
    ensures |SerializationBody(ps, corrected)| == 3 * |ps|
  {
    FlattenLength(Blocks(ps, corrected));
  }

  /** Line `k` of property `i`'s block is line `3 * i + k` of the body. */
  lemma SerializationBodyAt(ps: seq<PropertySymbol>, corrected: bool, i: nat, k: nat)
    requires i < |ps| && k < 3
    ensures |SerializationBody(ps, corrected)| == 3 * |ps|
    ensures SerializationBody(ps, corrected)[3 * i + k] == BlockOf(ps[i], corrected)[k]
  {
    FlattenLength(Blocks(ps, corrected));
    FlattenAt(Blocks(ps, corrected), i, k);
  }

  /** The body sits right after the four header lines. */
  lemma SerializationTextAt(ps: seq<PropertySymbol>, j: nat)
    requires j < |SerializationBody(ps, false)|
    ensures |SerializeHeader| + j < |SerializationText(ps)|
    ensures SerializationText(ps)[|SerializeHeader| + j] == SerializationBody(ps, false)[j]
  {
  }

  /**
   * The generated method: the fixed header, then each selected property's
   * three lines in order, naming its tag with the resolved name, then the
   * single return.
   */
  lemma SerializationLayout(ps: seq<PropertySymbol>)
    ensures var text := SerializationText(ps);
            && |text| == 3 * |ps| + 6
            && text[..4] == SerializeHeader && text[|text| - 2..] == SerializeFooter
            && (forall i, k :: 0 <= i < |ps| && 0 <= k < 3 ==> text[4 + 3 * i + k] == SerializationBlock(ps[i])[k])
  {
    SerializationBodyLength(ps, false);
    var text := SerializationText(ps);
    assert text[..4] == SerializeHeader;
    assert text[|text| - 2..] == SerializeFooter;
    forall i, k | 0 <= i < |ps| && 0 <= k < 3 ensures text[4 + 3 * i + k] == SerializationBlock(ps[i])[k] {
      SerializationBodyAt(ps, false, i, k);
      SerializationTextAt(ps, 3 * i + k);
    }
  }

  /**
   * As written, the own-serializer branch ends with `result.Add(obj)` and no
   * semicolon, so the generated class does not compile; the helper branch is
   * terminated.
   */
  lemma UnterminatedAdd(p: PropertySymbol)
    ensures Implements(p, "INbtSerializableType") <==> !Terminated(Render(SerializationBlock(p)[2]))
  {
    TerminatedIff(SerializationBlock(p)[2]);
  }

  /** Of a written block's three lines, only the own-serializer branch's last one lacks its semicolon. */
  lemma BlockTerminatedIff(p: PropertySymbol, k: nat)
    requires k < 3
    ensures Terminated(Render(SerializationBlock(p)[k])) <==> k != 2 || !Implements(p, "INbtSerializableType")
  {
    TerminatedIff(SerializationBlock(p)[k]);
  }

  lemma DivideByThree(l: nat, n: nat) returns (i: nat, k: nat)
    requires l < 3 * n
    ensures l == 3 * i + k && k < 3 && i < n
  {
    i, k := l / 3, l % 3;
  }

  /** The written method's statements are all terminated exactly when no property takes the own-serializer branch. */
  lemma SerializationTerminatedIff(ps: seq<PropertySymbol>)
    ensures (forall l :: 0 <= l < |SerializationBody(ps, false)| ==> Terminated(Render(SerializationBody(ps, false)[l])))
            <==> (forall i :: 0 <= i < |ps| ==> !Implements(ps[i], "INbtSerializableType"))
  {
    SerializationBodyLength(ps, false);
    var body := SerializationBody(ps, false);
    if forall l :: 0 <= l < |body| ==> Terminated(Render(body[l])) {
      forall i | 0 <= i < |ps| ensures !Implements(ps[i], "INbtSerializableType") {
        AddLineTerminated(ps, i);
      }
    }
    if forall i :: 0 <= i < |ps| ==> !Implements(ps[i], "INbtSerializableType") {
      forall l | 0 <= l < |body| ensures Terminated(Render(body[l])) {
        WrittenLineTerminated(ps, l);
      }
    }
  }

  /** Property `i`'s `Add` line in the written body is terminated iff it takes the helper branch. */
  lemma AddLineTerminated(ps: seq<PropertySymbol>, i: nat)
    requires i < |ps|
    ensures 3 * i + 2 < |SerializationBody(ps, false)|
    ensures Terminated(Render(SerializationBody(ps, false)[3 * i + 2])) <==> !Implements(ps[i], "INbtSerializableType")
  {
    SerializationBodyAt(ps, false, i, 2);
    BlockTerminatedIff(ps[i], 2);
  }

  /** Without own-serializer properties, every line of the written body is terminated. */
  lemma WrittenLineTerminated(ps: seq<PropertySymbol>, l: nat)
    requires l < |SerializationBody(ps, false)|
    requires forall i :: 0 <= i < |ps| ==> !Implements(ps[i], "INbtSerializableType")
    ensures Terminated(Render(SerializationBody(ps, false)[l]))
  {
    SerializationBodyLength(ps, false);
    var i, k := DivideByThree(l, |ps|);
    SerializationBodyAt(ps, false, i, k);
    var line := SerializationBody(ps, false)[l];
    assert line == SerializationBlock(ps[i])[k];
    assert !Implements(ps[i], "INbtSerializableType");
    BlockTerminatedIff(ps[i], k);
  }

  /** The written block and the corrected one differ exactly for an `INbtSerializableType` property. */
  lemma CorrectionOnlyForOwnSerializer(p: PropertySymbol)
    ensures CorrectedSerializationBlock(p) == SerializationBlock(p) <==> !Implements(p, "INbtSerializableType")
  {
    if Implements(p, "INbtSerializableType") {
      assert CorrectedSerializationBlock(p)[2] != SerializationBlock(p)[2];
    }
  }

  /** Each line of the corrected block is a terminated statement. */
  lemma CorrectedBlockTerminated(p: PropertySymbol, k: nat)
    requires k < 3
    ensures Terminated(Render(CorrectedSerializationBlock(p)[k]))
  {
    var line := CorrectedSerializationBlock(p)[k];
    assert line == AddTerminated || line == AssignName(GetNbtPropertyName(p))
        || line == OwnSerialize(p.name) || line == HelperSerialize(p.name) by {
      if k < 2 {
        assert line == SerializationBlock(p)[..2][k];
      }
    }
    TerminatedIff(line);
  }

  /** Every statement between the header and the footer of the corrected method is terminated. */
  lemma CorrectedSerializationTerminated(ps: seq<PropertySymbol>)
    ensures forall l :: 0 <= l < |SerializationBody(ps, true)| ==> Terminated(Render(SerializationBody(ps, true)[l]))
  {
    forall l | 0 <= l < |SerializationBody(ps, true)| ensures Terminated(Render(SerializationBody(ps, true)[l])) {
      CorrectedLineTerminated(ps, l);
    }
  }

  lemma CorrectedLineTerminated(ps: seq<PropertySymbol>, l: nat)
    requires l < |SerializationBody(ps, true)|
    ensures Terminated(Render(SerializationBody(ps, true)[l]))
  {
    SerializationBodyLength(ps, true);
    var i, k := DivideByThree(l, |ps|);
    SerializationBodyAt(ps, true, i, k);
    var line := SerializationBody(ps, true)[l];
    assert line == CorrectedSerializationBlock(ps[i])[k];
    CorrectedBlockTerminated(ps[i], k);
  }

  /** The corrected method is the written one with each own-serializer `Add` terminated, and nothing else changed. */
  lemma CorrectedTextDiffersOnlyInAdds(ps: seq<PropertySymbol>)
    ensures |CorrectedSerializationText(ps)| == |SerializationText(ps)|
    ensures forall l :: 0 <= l < |SerializationText(ps)| && SerializationText(ps)[l] != AddUnterminated ==>
              CorrectedSerializationText(ps)[l] == SerializationText(ps)[l]
  {
    SerializationBodyLength(ps, false);
    SerializationBodyLength(ps, true);
    forall l | 0 <= l < |SerializationText(ps)| && SerializationText(ps)[l] != AddUnterminated
      ensures CorrectedSerializationText(ps)[l] == SerializationText(ps)[l]
    {
      if 4 <= l < 4 + 3 * |ps| {
        CorrectedLineAgrees(ps, l - 4);
      }
    }
  }

  lemma CorrectedLineAgrees(ps: seq<PropertySymbol>, j: nat)
    requires j < 3 * |ps|
    ensures |SerializationBody(ps, false)| == |SerializationBody(ps, true)| == 3 * |ps|
    ensures SerializationBody(ps, false)[j] != AddUnterminated ==> SerializationBody(ps, true)[j] == SerializationBody(ps, false)[j]
  {
    var i, k := DivideByThree(j, |ps|);
    SerializationBodyAt(ps, false, i, k);
    SerializationBodyAt(ps, true, i, k);
    if k == 2 {
      assert SerializationBlock(ps[i])[2] == AddUnterminated || SerializationBlock(ps[i])[2] == AddTerminated;
    } else {
      assert CorrectedSerializationBlock(ps[i])[..2][k] == SerializationBlock(ps[i])[..2][k];
    }
  }

  // ---------------------------------------------------------------------------
  // GetDeserialization

  const DeserializeHeader: seq<Line> := [DeserializeSignature, CompoundCheck, DeserializerHelperDeclaration]
  const DeserializeFooter: seq<Line> := [CloseMethod]

  /** The key a deserializing line looks up in the compound, if it reads a tag. */
  function KeyRead(l: Line): Option<string> {
    match l
    case OwnDeserialize(_, k) => Some(k)
    case HelperDeserialize(_, k) => Some(k)
    case _ => None
  }

  /**
   * The lines for one property: an `INbtDeserializableType` is created and
   * reads its own tag; anything else goes through a temporary and the
   * helper's out-parameter overload. The second line reads the tag.
   */
  function DeserializationBlock(p: PropertySymbol): (b: seq<Line>)
    ensures 2 <= |b| <= 3 && KeyRead(b[1]) == Some(GetNbtPropertyName(p))
    ensures forall k :: 0 <= k < |b| && k != 1 ==> KeyRead(b[k]).None?
    ensures Implements(p, "INbtDeserializableType") <==> b[0] == CreateNew(p.name)
  {
    var propertyName := GetNbtPropertyName(p);
    if Implements(p, "INbtDeserializableType") then
      [CreateNew(p.name), OwnDeserialize(p.name, propertyName)]
    else
      [TempDeclaration(p.name), HelperDeserialize(p.name, propertyName), AssignFromTemp(p.name)]
  }

  function DeserializationBody(ps: seq<PropertySymbol>): seq<Line> {
    if ps == [] then [] else DeserializationBody(ps[..|ps| - 1]) + DeserializationBlock(ps[|ps| - 1])
  }

  /** The generated `DeserializeFromNbt` method, line by line. */
  function DeserializationText(ps: seq<PropertySymbol>): seq<Line> {
    DeserializeHeader + DeserializationBody(ps) + DeserializeFooter
  }

  lemma DeserializationBodyStep(ps: seq<PropertySymbol>, i: nat)
    requires i < |ps|
    ensures DeserializationBody(ps[..i + 1]) == DeserializationBody(ps[..i]) + DeserializationBlock(ps[i])
  {
    assert ps[..i + 1][..i] == ps[..i];
  }

  /** One pass of `GetDeserialization`'s loop: the lines for `item`. */
  method AppendDeserialization(sb: seq<Line>, item: PropertySymbol) returns (sb': seq<Line>)
    ensures sb' == sb + DeserializationBlock(item)
  {
    var propertyName := GetNbtPropertyName(item);
    if Implements(item, "INbtDeserializableType") {
      sb' := sb + [CreateNew(item.name)];
      sb' := sb' + [OwnDeserialize(item.name, propertyName)];
      return;
    }
    sb' := sb + [TempDeclaration(item.name)];
    sb' := sb' + [HelperDeserialize(item.name, propertyName)];
    sb' := sb' + [AssignFromTemp(item.name)];
  }

  /** `GetDeserialization`: the compound check and helper, two or three lines per property, the closing brace. */
  method GetDeserialization(ps: seq<PropertySymbol>) returns (sb: seq<Line>)
    ensures sb == DeserializationText(ps)
  {
    sb := DeserializeHeader;
    var i := 0;
    while i < |ps|
      invariant i <= |ps| && sb == DeserializeHeader + DeserializationBody(ps[..i])
    {
      var sb' := AppendDeserialization(sb, ps[i]);
      DeserializationPrefixStep(ps, i, sb, sb');
      sb := sb';
      i := i + 1;
    }
    DeserializationFinish(ps, sb);
    sb := sb + DeserializeFooter;
  }

  lemma DeserializationPrefixStep(ps: seq<PropertySymbol>, i: nat, sb: seq<Line>, sb': seq<Line>)
    requires i < |ps| && sb == DeserializeHeader + DeserializationBody(ps[..i])
    requires sb' == sb + DeserializationBlock(ps[i])
    ensures sb' == DeserializeHeader + DeserializationBody(ps[..i + 1])
  {
    DeserializationBodyStep(ps, i);
    AppendStep(DeserializeHeader, DeserializationBody(ps[..i]), DeserializationBlock(ps[i]),
               DeserializationBody(ps[..i + 1]), sb, sb');
  }

  /** Appending a block to header + prefix gives header + (prefix + block). */
  lemma AppendStep(header: seq<Line>, before: seq<Line>, block: seq<Line>, after: seq<Line>, sb: seq<Line>, sb': seq<Line>)
    requires after == before + block && sb == header + before && sb' == sb + block
    ensures sb' == header + after
  {
  }

  lemma DeserializationFinish(ps: seq<PropertySymbol>, sb: seq<Line>)
    requires sb == DeserializeHeader + DeserializationBody(ps[..|ps|])
    ensures sb + DeserializeFooter == DeserializationText(ps)
  {
    assert ps[..|ps|] == ps;
  }

  /** The lines for the first `j` properties are a prefix of the lines for all of them. */
  lemma {:induction false} DeserializationBodyPrefix(ps: seq<PropertySymbol>, j: nat)
    requires j <= |ps|
    ensures DeserializationBody(ps[..j]) <= DeserializationBody(ps)
    decreases |ps|
  {
    if j < |ps| {
      var init := ps[..|ps| - 1];
      DeserializationBodyPrefix(init, j);
      assert init[..j] == ps[..j];
    } else {
      assert ps[..j] == ps;
    }
  }

  /** Where property `i`'s block starts in the generated method. */
  function DeserializationStart(ps: seq<PropertySymbol>, i: nat): nat
    requires i <= |ps|
  {
    |DeserializeHeader| + |DeserializationBody(ps[..i])|
  }

  /** Line `k` of property `i`'s block follows the lines of the properties before it. */
  lemma DeserializationBodyAt(ps: seq<PropertySymbol>, i: nat, k: nat)
    requires i < |ps| && k < |DeserializationBlock(ps[i])|
    ensures |DeserializationBody(ps[..i])| + k < |DeserializationBody(ps)|
    ensures DeserializationBody(ps)[|DeserializationBody(ps[..i])| + k] == DeserializationBlock(ps[i])[k]
  {
    DeserializationBodyStep(ps, i);
    DeserializationBodyPrefix(ps, i + 1);
    var before := DeserializationBody(ps[..i]);
    assert DeserializationBody(ps[..i + 1])[|before| + k] == DeserializationBlock(ps[i])[k];
  }

  /** The body sits right after the three header lines. */
  lemma DeserializationTextAt(ps: seq<PropertySymbol>, j: nat)
    requires j < |DeserializationBody(ps)|
    ensures |DeserializeHeader| + j < |DeserializationText(ps)|
    ensures DeserializationText(ps)[|DeserializeHeader| + j] == DeserializationBody(ps)[j]
  {
  }

  /** Property `i`'s block sits, in order, right after the blocks of the properties before it. */
  lemma DeserializationLayout(ps: seq<PropertySymbol>, i: nat)
    requires i < |ps|
    ensures DeserializationStart(ps, i) + |DeserializationBlock(ps[i])| <= |DeserializationText(ps)|
    ensures forall k :: 0 <= k < |DeserializationBlock(ps[i])| ==>
              DeserializationText(ps)[DeserializationStart(ps, i) + k] == DeserializationBlock(ps[i])[k]
    ensures i + 1 <= |ps| && DeserializationStart(ps, i + 1) == DeserializationStart(ps, i) + |DeserializationBlock(ps[i])|
    ensures DeserializationText(ps)[..3] == DeserializeHeader
    ensures DeserializationText(ps)[|DeserializationText(ps)| - 1] == CloseMethod
  {
    assert DeserializationText(ps)[..3] == DeserializeHeader;
    var block := DeserializationBlock(ps[i]);
    DeserializationBodyAt(ps, i, |block| - 1);
    forall k | 0 <= k < |block|
      ensures DeserializationText(ps)[DeserializationStart(ps, i) + k] == block[k]
    {
      DeserializationBodyAt(ps, i, k);
      DeserializationTextAt(ps, |DeserializationBody(ps[..i])| + k);
    }
    DeserializationBodyStep(ps, i);
  }

  /**
   * Serialization and deserialization agree on every property's key: the
   * name the serializer assigns to property `i`'s tag is the key the
   * deserializer looks up for it, and both are the resolved name.
   */
  lemma KeysAgree(ps: seq<PropertySymbol>, i: nat)
    requires i < |ps|
    ensures 4 + 3 * i + 1 < |SerializationText(ps)|
    ensures SerializationText(ps)[4 + 3 * i + 1] == AssignName(GetNbtPropertyName(ps[i]))
    ensures DeserializationStart(ps, i) + 1 < |DeserializationText(ps)|
    ensures KeyRead(DeserializationText(ps)[DeserializationStart(ps, i) + 1]) == Some(GetNbtPropertyName(ps[i]))
  {
    SerializationBodyAt(ps, false, i, 1);
    SerializationTextAt(ps, 3 * i + 1);
    DeserializationLayout(ps, i);
    var start := DeserializationStart(ps, i);
    assert DeserializationText(ps)[start + 1] == DeserializationBlock(ps[i])[1];
  }

  // ---------------------------------------------------------------------------
  // FindNbtSerializableType

  predicate AnyAttributeNamed(atts: seq<AttributeSyntax>, marker: string)
    ensures AnyAttributeNamed(atts, marker) <==> exists j :: 0 <= j < |atts| && Contains(atts[j].name, marker)
  {
    atts != [] && (Contains(atts[0].name, marker) || AnyAttributeNamed(atts[1..], marker))
  }

  predicate AnyListNamed(lists: seq<seq<AttributeSyntax>>, marker: string)
    ensures AnyListNamed(lists, marker) <==>
              exists i, j :: 0 <= i < |lists| && 0 <= j < |lists[i]| && Contains(lists[i][j].name, marker)
  {
    lists != [] && (AnyAttributeNamed(lists[0], marker) || AnyListNamed(lists[1..], marker))
  }

  /** `FindNbtSerializableType`: a class declaration with an attribute whose name contains "NbtSerializableType". */
  predicate FindNbtSerializableType(node: SyntaxNode) {
    if !node.ClassDeclaration? || |node.attributeLists| == 0 then false
    else AnyListNamed(node.attributeLists, "NbtSerializableType")
  }

  /** Exactly the class declarations carrying a matching attribute in some list are picked; the empty-list guard changes nothing. */
  lemma FindIffMarked(node: SyntaxNode)
    ensures FindNbtSerializableType(node) <==>
              node.ClassDeclaration? &&
              exists i, j :: 0 <= i < |node.attributeLists| && 0 <= j < |node.attributeLists[i]|
                             && Contains(node.attributeLists[i][j].name, "NbtSerializableType")
    ensures node.ClassDeclaration? ==> FindNbtSerializableType(node) == AnyListNamed(node.attributeLists, "NbtSerializableType")
  {
  }

  /** `[NbtSerializableType]` and `[fNbt.Serialization.NbtSerializableType]` are both found; a bare class is not. */
  lemma FindExamples()
    ensures FindNbtSerializableType(ClassDeclaration([[AttributeSyntax("NbtSerializableType")]]))
    ensures FindNbtSerializableType(ClassDeclaration([[AttributeSyntax("Obsolete")], [AttributeSyntax("fNbt.Serialization.NbtSerializableType")]]))
    ensures !FindNbtSerializableType(ClassDeclaration([]))
    ensures !FindNbtSerializableType(OtherNode)
  {
    FindsShortName();
    FindsQualifiedName();
  }

  lemma FindsShortName()
    ensures FindNbtSerializableType(ClassDeclaration([[AttributeSyntax("NbtSerializableType")]]))
  {
    assert "NbtSerializableType" <= "NbtSerializableType";
  }

  lemma FindsQualifiedName()
    ensures FindNbtSerializableType(ClassDeclaration([[AttributeSyntax("Obsolete")], [AttributeSyntax("fNbt.Serialization.NbtSerializableType")]]))
  {
    var long: string := "fNbt.Serialization.NbtSerializableType";
    assert "NbtSerializableType" <= long[19..];
    ContainsAt(long, "NbtSerializableType", 19);
    assert AnyAttributeNamed([AttributeSyntax(long)], "NbtSerializableType");
  }
}
