/**
 Filling in the titles and descriptions that a node definition leaves blank: parameter properties at every
 depth of a JSON Schema, ports, form fields and the definition itself.
 */
module SchemaEnrichment {
  import opened Common
  import opened TextTools

  datatype Json = Null | Bool(b: bool) | Number(text: string) | Text(text: string)
                | Array(items: seq<Json>) | Object(fields: map<string, Json>)

  type Fields = map<string, Json>

  /** `dumps` prints a value as compact JSON. */
  datatype Env = Env(dumps: Json -> string)

  const COMPOSITIONS: set<string> := {"allOf", "anyOf", "oneOf", "prefixItems"}

  // ----- Titles -----------------------------------------------------------------------------------------------

  const TITLES: map<string, string> := map[
    "url" := "请求地址", "method" := "请求方法", "headers" := "请求头", "body" := "请求体", "timeout" := "超时时间",
    "timeout_seconds" := "超时时间（秒）", "poll_interval_seconds" := "轮询间隔（秒）", "confidence" := "置信度",
    "confidence_threshold" := "置信度阈值", "iou_threshold" := "IoU 阈值", "device" := "运行设备",
    "model_path" := "模型路径", "input_path" := "输入路径", "output_path" := "输出路径", "overwrite" := "覆盖已有文件",
    "encoding" := "文本编码", "format" := "数据格式", "mode" := "运行模式", "enabled" := "是否启用"]

  const ACRONYMS: set<string> := {"api", "fps", "gpu", "http", "id", "iou", "nms", "roi", "url"}

  function TitleWord(word: string): string
    requires word != ""
  {
    if Lower(word) in ACRONYMS then Upper(word) else Upper(word[..1]) + word[1..]
  }

  function TitleWords(words: seq<string>): (r: seq<string>)
    requires forall i | 0 <= i < |words| :: words[i] != ""
    ensures |r| == |words| && forall i | 0 <= i < |r| :: r[i] == TitleWord(words[i])
  {
    seq(|words|, i requires 0 <= i < |words| => TitleWord(words[i]))
  }

  /** `_parameter_title`. */
  function ParameterTitle(name: string): string {
    if Lower(name) in TITLES then TITLES[Lower(name)]
    else
      WordsAre(Strip(name), "");
      var words := WordsFrom(Strip(name), "");
      var title := JoinWith(TitleWords(words), " ");
      if title != "" then title else name
  }

  /** A name of separators only that would be stripped to something else. */
  predicate Wobbly(name: string) {
    OnlySeparators(name) && Strip(name) != "" && Strip(name) != name
  }

  lemma {:induction false} StripKeepsSeparators(s: string)
    ensures OnlySeparators(s) <==> OnlySeparators(Strip(s))
  {
    StripLeftKeeps(s);
    StripRightKeeps(StripLeft(s));
  }

  lemma {:induction false} StripLeftKeeps(s: string)
    ensures OnlySeparators(s) <==> OnlySeparators(StripLeft(s))
  {
    if s != "" && IsSpace(s[0]) {
      StripLeftKeeps(s[1..]);
      assert s == [s[0]] + s[1..];
    }
  }

  lemma {:induction false} StripRightKeeps(s: string)
    ensures OnlySeparators(s) <==> OnlySeparators(StripRight(s))
    decreases |s|
  {
    if s != "" && IsSpace(s[|s| - 1]) {
      StripRightKeeps(s[..|s| - 1]);
      assert s == s[..|s| - 1] + [s[|s| - 1]];
    }
  }

  lemma TitleWordIsTrim(word: string)
    requires word != "" && NoSeparator(word)
    ensures TitleWord(word) != "" && Trim(TitleWord(word))
  {
  }

  lemma KnownNamesAreWords(name: string)
    requires OnlySeparators(name)
    ensures Lower(name) !in TITLES
  {
    if name != "" {
      assert IsSeparator(name[0]) && !IsLowerLetter(name[0]) && !IsUpperLetter(name[0]);
      assert Lower(name)[0] == name[0];
    }
    assert forall k | k in TITLES :: k != "" && IsLowerLetter(k[0]);
  }

  /** A generated title has nothing to strip, except that a name without words is taken as it is. */
  lemma ParameterTitleIs(name: string)
    ensures OnlySeparators(name) ==> ParameterTitle(name) == name
    ensures !OnlySeparators(name) ==> ParameterTitle(name) != "" && Trim(ParameterTitle(name))
  {
    if Lower(name) in TITLES {
      KnownTitlesAreTrim(Lower(name));
      if OnlySeparators(name) {
        KnownNamesAreWords(name);
      }
    } else {
      WordsAre(Strip(name), "");
      StripKeepsSeparators(name);
      var words := WordsFrom(Strip(name), "");
      forall i | 0 <= i < |words| ensures TitleWords(words)[i] != "" && Trim(TitleWords(words)[i]) {
        TitleWordIsTrim(words[i]);
      }
      JoinIsTrim(TitleWords(words), " ");
    }
  }

  lemma KnownTitlesAreTrim(k: string)
    requires k in TITLES
    ensures TITLES[k] != "" && Trim(TITLES[k])
  {
  }

  // ----- Descriptions -------------------------------------------------------------------------------------------

  function Lookup(fields: Fields, key: string): Option<Json> {
    if key in fields then Some(fields[key]) else None
  }

  /** `_read_non_empty_text`. */
  function NonEmpty(v: Option<Json>): (r: Option<string>)
    ensures r.Some? ==> r.value != "" && Trim(r.value) && Strip(r.value) == r.value
  {
    if v.Some? && v.value.Text? && Strip(v.value.text) != "" then
      StripIsTrim(v.value.text);
      Some(Strip(v.value.text))
    else None
  }

  const TYPE_NAMES: map<string, string> := map[
    "array" := "数组", "boolean" := "布尔值", "integer" := "整数", "null" := "空值", "number" := "数值",
    "object" := "对象", "string" := "字符串"]

  function TypeName(t: string): string {
    if t in TYPE_NAMES then TYPE_NAMES[t] else t
  }

  function TypeNames(items: seq<Json>): seq<string> {
    if items == [] then []
    else (if items[0].Text? then [TypeName(items[0].text)] else []) + TypeNames(items[1..])
  }

  function Shorten(env: Env, v: Json): string {
    var text := env.dumps(v);
    if |text| <= 120 then text else text[..117] + "..."
  }

  function ShortenAll(env: Env, items: seq<Json>): seq<string> {
    if items == [] then [] else [Shorten(env, items[0])] + ShortenAll(env, items[1..])
  }

  function OrElse(fields: Fields, key: string, fallback: string): Json {
    if key in fields then fields[key] else if fallback in fields then fields[fallback] else Null
  }

  /** The constraints worth telling, in a fixed order. */
  function Details(env: Env, fields: Fields, required: bool): seq<string> {
    var type' := Lookup(fields, "type");
    var choices := Lookup(fields, "enum");
    var minimum, maximum := OrElse(fields, "minimum", "exclusiveMinimum"),
                            OrElse(fields, "maximum", "exclusiveMaximum");
    [if required then "必填参数" else "可选参数"]
    + (if type'.None? then []
       else if type'.value.Text? then ["类型为" + TypeName(type'.value.text)]
       else if type'.value.Array? && TypeNames(type'.value.items) != []
         then ["类型为" + JoinWith(TypeNames(type'.value.items), "或")]
       else [])
    + (if choices.Some? && choices.value.Array? && choices.value.items != [] then
         ["可选值：" + JoinWith(ShortenAll(env, choices.value.items), ", ")] else [])
    + (if "default" in fields then ["默认值：" + Shorten(env, fields["default"])] else [])
    + (if minimum != Null && maximum != Null then ["范围：" + Shorten(env, minimum) + " 至 " + Shorten(env, maximum)]
       else if minimum != Null then ["最小值：" + Shorten(env, minimum)]
       else if maximum != Null then ["最大值：" + Shorten(env, maximum)]
       else [])
  }

  /** `_build_parameter_description`. */
  function Describe(env: Env, title: string, fields: Fields, required: bool): (r: string)
    ensures r != "" && !IsSpace(r[0]) && !IsSpace(r[|r| - 1])
  {
    "配置节点的" + title + "；" + JoinWith(Details(env, fields, required), "；") + "。"
  }

  // ----- The recursion --------------------------------------------------------------------------------------------

  function RequiredNames(fields: Fields): set<string> {
    if "required" in fields && fields["required"].Array? then
      set i | 0 <= i < |fields["required"].items| && fields["required"].items[i].Text? ::
        fields["required"].items[i].text
    else {}
  }

  function TitleOf(fields: Fields, name: string): string {
    var given := NonEmpty(Lookup(fields, "title"));
    if given.Some? then given.value else ParameterTitle(name)
  }

  /** The title, and a description where there is none. */
  function WithTexts(env: Env, original: Fields, deep: Fields, name: string, required: bool): Fields {
    var title := TitleOf(original, name);
    var titled := deep["title" := Text(title)];
    if NonEmpty(Lookup(original, "description")).Some? then titled
    else titled["description" := Text(Describe(env, title, original["title" := Text(title)], required))]
  }

  /** `_enrich_schema_node`; a name makes the schema a property. */
  function Enrich(env: Env, j: Json, name: Option<string>, required: bool): (r: Json)
    requires j.Object?
    ensures r.Object?
    decreases j, 0
  {
    var deep := map k | k in j.fields :: EnrichUnder(env, k, j.fields[k], RequiredNames(j.fields));
    if name.None? then Object(deep) else Object(WithTexts(env, j.fields, deep, name.value, required))
  }

  /** The value of one keyword. */
  function EnrichUnder(env: Env, key: string, v: Json, required: set<string>): Json
    decreases v, 1
  {
    if key == "properties" && v.Object? then
      Object(map n | n in v.fields :: if v.fields[n].Object? then Enrich(env, v.fields[n], Some(n), n in required)
             else v.fields[n])
    else if key == "items" && v.Object? then Enrich(env, v, None, false)
    else if key in COMPOSITIONS && v.Array? then
      Array(seq(|v.items|, i requires 0 <= i < |v.items| => if v.items[i].Object?
                then Enrich(env, v.items[i], None, false) else v.items[i]))
    else v
  }

  function Deep(env: Env, j: Json): Fields
    requires j.Object?
  {
    map k | k in j.fields :: EnrichUnder(env, k, j.fields[k], RequiredNames(j.fields))
  }

  lemma EnrichIs(env: Env, j: Json, name: Option<string>, required: bool)
    requires j.Object?
    ensures Enrich(env, j, name, required)
         == Object(if name.None? then Deep(env, j) else WithTexts(env, j.fields, Deep(env, j), name.value, required))
  {
  }

  // ----- Every property ends up told --------------------------------------------------------------------------------

  /** A property has a title and a description that is not blank, at every depth. */
  predicate Told(j: Json, isProperty: bool)
    decreases j, 0
  {
    j.Object? ==>
      && (isProperty ==>
            "title" in j.fields && j.fields["title"].Text? && NonEmpty(Lookup(j.fields, "description")).Some?)
      && (forall k | k in j.fields :: ToldUnder(k, j.fields[k]))
  }

  predicate ToldUnder(key: string, v: Json)
    decreases v, 1
  {
    && (key == "properties" && v.Object? ==> forall n | n in v.fields :: Told(v.fields[n], true))
    && (key == "items" ==> Told(v, false))
    && (key in COMPOSITIONS && v.Array? ==> forall i | 0 <= i < |v.items| :: Told(v.items[i], false))
  }

  /** Enriching tells every property. */
  lemma {:induction false} EnrichTells(env: Env, j: Json, name: Option<string>, required: bool)
    requires j.Object?
    ensures Told(Enrich(env, j, name, required), name.Some?)
    decreases j, 0
  {
    var r := Enrich(env, j, name, required);
    forall k | k in j.fields ensures ToldUnder(k, Deep(env, j)[k]) {
      EnrichTellsUnder(env, k, j.fields[k], RequiredNames(j.fields));
    }
    EnrichIs(env, j, name, required);
    if name.Some? {
      TextsTell(env, j.fields, Deep(env, j), name.value, required);
    }
  }

  lemma TextsTell(env: Env, original: Fields, deep: Fields, name: string, required: bool)
    requires deep.Keys == original.Keys
             && ("description" in original ==> deep["description"] == original["description"])
    requires forall k | k in deep :: ToldUnder(k, deep[k])
    ensures Told(Object(WithTexts(env, original, deep, name, required)), true)
  {
    hide ParameterTitle, TitleOf;
    var r := WithTexts(env, original, deep, name, required);
    var d := Describe(env, TitleOf(original, name), original["title" := Text(TitleOf(original, name))], required);
    TrimStays(d);
    forall k | k in r ensures ToldUnder(k, r[k]) {
    }
  }

  lemma {:induction false} EnrichTellsUnder(env: Env, key: string, v: Json, required: set<string>)
    ensures ToldUnder(key, EnrichUnder(env, key, v, required))
    decreases v, 1
  {
    if key == "properties" && v.Object? {
      forall n | n in v.fields && v.fields[n].Object?
        ensures Told(Enrich(env, v.fields[n], Some(n), n in required), true)
      {
        EnrichTells(env, v.fields[n], Some(n), n in required);
      }
    } else if key == "items" && v.Object? {
      EnrichTells(env, v, None, false);
    } else if key in COMPOSITIONS && v.Array? {
      forall i | 0 <= i < |v.items| && v.items[i].Object? ensures Told(Enrich(env, v.items[i], None, false), false) {
        EnrichTells(env, v.items[i], None, false);
      }
    }
  }

  // ----- Nothing else changes ------------------------------------------------------------------------------------

  /** The schema without the titles and descriptions of its properties. */
  function Erase(j: Json, isProperty: bool): Json
    decreases j, 0
  {
    if j.Object? then
      Object(map k | k in j.fields && !(isProperty && (k == "title" || k == "description")) ::
             EraseUnder(k, j.fields[k]))
    else j
  }

  function EraseUnder(key: string, v: Json): Json
    decreases v, 1
  {
    if key == "properties" && v.Object? then Object(map n | n in v.fields :: Erase(v.fields[n], true))
    else if key == "items" then Erase(v, false)
    else if key in COMPOSITIONS && v.Array?
      then Array(seq(|v.items|, i requires 0 <= i < |v.items| => Erase(v.items[i], false)))
    else v
  }

  /** Apart from titles and descriptions of properties the schema is the same. */
  lemma {:induction false} EnrichConserves(env: Env, j: Json, name: Option<string>, required: bool)
    requires j.Object?
    ensures Erase(Enrich(env, j, name, required), name.Some?) == Erase(j, name.Some?)
    decreases j, 0
  {
    EnrichIs(env, j, name, required);
    forall k | k in j.fields ensures EraseUnder(k, Deep(env, j)[k]) == EraseUnder(k, j.fields[k]) {
      EnrichConservesUnder(env, k, j.fields[k], RequiredNames(j.fields));
    }
    EraseTexts(env, j, Deep(env, j), name, required);
  }

  lemma EraseTexts(env: Env, j: Json, deep: Fields, name: Option<string>, required: bool)
    requires j.Object? && deep.Keys == j.fields.Keys
    requires forall k | k in deep :: EraseUnder(k, deep[k]) == EraseUnder(k, j.fields[k])
    ensures Erase(Object(if name.None? then deep else WithTexts(env, j.fields, deep, name.value, required)), name.Some?)
         == Erase(j, name.Some?)
  {
    hide EraseUnder, TitleOf, Describe;
    var fields := if name.None? then deep else WithTexts(env, j.fields, deep, name.value, required);
    var a, b := Erase(Object(fields), name.Some?), Erase(j, name.Some?);
    assert a.fields.Keys == b.fields.Keys;
    assert a.fields == b.fields;
  }

  lemma {:induction false} EnrichConservesUnder(env: Env, key: string, v: Json, required: set<string>)
    ensures EraseUnder(key, EnrichUnder(env, key, v, required)) == EraseUnder(key, v)
    decreases v, 1
  {
    if key == "properties" && v.Object? {
      forall n | n in v.fields && v.fields[n].Object?
        ensures Erase(Enrich(env, v.fields[n], Some(n), n in required), true) == Erase(v.fields[n], true)
      {
        EnrichConserves(env, v.fields[n], Some(n), n in required);
      }
    } else if key == "items" && v.Object? {
      EnrichConserves(env, v, None, false);
    } else if key in COMPOSITIONS && v.Array? {
      forall i | 0 <= i < |v.items| && v.items[i].Object?
        ensures Erase(Enrich(env, v.items[i], None, false), false) == Erase(v.items[i], false)
      {
        EnrichConserves(env, v.items[i], None, false);
      }
    }
  }

  // ----- Texts already given stay --------------------------------------------------------------------------------

  /** A description that is not blank is kept letter by letter, a title that is not blank up to stripping. */
  predicate Respects(before: Json, after: Json, isProperty: bool)
    decreases before, 0
  {
    before.Object? ==>
      && after.Object?
      && (isProperty ==>
            && (NonEmpty(Lookup(before.fields, "description")).Some? ==>
                  Lookup(after.fields, "description") == Lookup(before.fields, "description"))
            && (NonEmpty(Lookup(before.fields, "title")).Some? ==>
                  Lookup(after.fields, "title") == Some(Text(NonEmpty(Lookup(before.fields, "title")).value))))
      && (forall k | k in before.fields && k !in {"title", "description"} ::
            k in after.fields && RespectsUnder(k, before.fields[k], after.fields[k]))
  }

  predicate RespectsUnder(key: string, before: Json, after: Json)
    decreases before, 1
  {
    && (key == "properties" && before.Object? ==>
          after.Object? && forall n | n in before.fields ::
            n in after.fields && Respects(before.fields[n], after.fields[n], true))
    && (key == "items" ==> Respects(before, after, false))
    && (key in COMPOSITIONS && before.Array? ==>
          after.Array? && |after.items| == |before.items|
          && forall i | 0 <= i < |before.items| :: Respects(before.items[i], after.items[i], false))
  }

  lemma {:induction false} EnrichRespects(env: Env, j: Json, name: Option<string>, required: bool)
    requires j.Object?
    ensures Respects(j, Enrich(env, j, name, required), name.Some?)
    decreases j, 0
  {
    EnrichIs(env, j, name, required);
    forall k | k in j.fields ensures RespectsUnder(k, j.fields[k], Deep(env, j)[k]) {
      EnrichRespectsUnder(env, k, j.fields[k], RequiredNames(j.fields));
    }
    TextsRespect(env, j, Deep(env, j), name, required);
  }

  lemma TextsRespect(env: Env, j: Json, deep: Fields, name: Option<string>, required: bool)
    requires j.Object? && deep.Keys == j.fields.Keys
    requires "description" in deep ==> deep["description"] == j.fields["description"]
    requires forall k | k in deep :: RespectsUnder(k, j.fields[k], deep[k])
    ensures Respects(j, Object(if name.None? then deep else WithTexts(env, j.fields, deep, name.value, required)),
                     name.Some?)
  {
    hide RespectsUnder, ParameterTitle, Describe, NonEmpty;
  }

  lemma {:induction false} EnrichRespectsUnder(env: Env, key: string, v: Json, required: set<string>)
    ensures RespectsUnder(key, v, EnrichUnder(env, key, v, required))
    decreases v, 1
  {
    if key == "properties" && v.Object? {
      forall n | n in v.fields && v.fields[n].Object?
        ensures Respects(v.fields[n], Enrich(env, v.fields[n], Some(n), n in required), true)
      {
        EnrichRespects(env, v.fields[n], Some(n), n in required);
      }
    } else if key == "items" && v.Object? {
      EnrichRespects(env, v, None, false);
    } else if key in COMPOSITIONS && v.Array? {
      forall i | 0 <= i < |v.items| && v.items[i].Object?
        ensures Respects(v.items[i], Enrich(env, v.items[i], None, false), false)
      {
        EnrichRespects(env, v.items[i], None, false);
      }
    }
  }

  // ----- Enriching twice -----------------------------------------------------------------------------------------

  /** No property without a title has a name of separators only that stripping would change. */
  predicate Steady(j: Json, name: Option<string>)
    decreases j, 0
  {
    j.Object? ==>
      && (name.Some? ==> !(NonEmpty(Lookup(j.fields, "title")).None? && Wobbly(name.value)))
      && (forall k | k in j.fields :: SteadyUnder(k, j.fields[k]))
  }

  predicate SteadyUnder(key: string, v: Json)
    decreases v, 1
  {
    && (key == "properties" && v.Object? ==> forall n | n in v.fields :: Steady(v.fields[n], Some(n)))
    && (key == "items" ==> Steady(v, None))
    && (key in COMPOSITIONS && v.Array? ==> forall i | 0 <= i < |v.items| :: Steady(v.items[i], None))
  }

  /** The title of an enriched property is its own title unless the name wobbles. */
  lemma TitleSettles(fields: Fields, name: string)
    ensures var title := TitleOf(fields, name);
            TitleOf(map["title" := Text(title)], name) == title
            <==> !(NonEmpty(Lookup(fields, "title")).None? && Wobbly(name))
  {
    var title := TitleOf(fields, name);
    ParameterTitleIs(name);
    if NonEmpty(Lookup(fields, "title")).None? && !OnlySeparators(name) {
      TrimStays(title);
    }
  }

  lemma TitleOfSame(a: Fields, b: Fields, name: string)
    requires Lookup(a, "title") == Lookup(b, "title")
    ensures TitleOf(a, name) == TitleOf(b, name)
  {
  }

  /** Enriching is idempotent exactly on the schemas without such a property. */
  lemma {:induction false} EnrichTwice(env: Env, j: Json, name: Option<string>, required: bool)
    requires j.Object?
    ensures var r := Enrich(env, j, name, required);
            Enrich(env, r, name, required) == r <==> Steady(j, name)
    decreases j, 0
  {
    hide EnrichUnder, SteadyUnder, WithTexts, Describe, TitleOf, Wobbly, NonEmpty, RequiredNames;
    var r := Enrich(env, j, name, required);
    EnrichIs(env, j, name, required);
    EnrichIs(env, r, name, required);
    forall k | k in j.fields
      ensures EnrichUnder(env, k, Deep(env, j)[k], RequiredNames(j.fields)) == Deep(env, j)[k] <==>
              SteadyUnder(k, j.fields[k])
    {
      EnrichTwiceUnder(env, k, j.fields[k], RequiredNames(j.fields));
    }
    PlainKeysStay(env, j);
    if name.None? {
      assert r.fields == Deep(env, j);
      DeepTwice(env, j);
    } else {
      TextsTwice(env, j, name.value, required);
      DeepTwice(env, j);
      SteadySplit(j, name.value);
    }
  }

  lemma SteadySplit(j: Json, name: string)
    requires j.Object?
    ensures Steady(j, Some(name)) <==>
            !(NonEmpty(Lookup(j.fields, "title")).None? && Wobbly(name))
            && forall k | k in j.fields :: SteadyUnder(k, j.fields[k])
  {
  }

  lemma PlainKey(env: Env, j: Json, key: string)
    requires j.Object? && key in {"title", "description", "required"}
    ensures Lookup(Deep(env, j), key) == Lookup(j.fields, key)
  {
  }

  lemma SameRequired(f: Fields, g: Fields)
    requires Lookup(f, "required") == Lookup(g, "required")
    ensures RequiredNames(f) == RequiredNames(g)
  {
  }

  /** Titles, descriptions and the list of required names are not keywords the recursion goes into. */
  lemma PlainKeysStay(env: Env, j: Json)
    requires j.Object?
    ensures Lookup(Deep(env, j), "title") == Lookup(j.fields, "title")
    ensures Lookup(Deep(env, j), "description") == Lookup(j.fields, "description")
    ensures RequiredNames(Deep(env, j)) == RequiredNames(j.fields)
  {
    hide Deep, RequiredNames;
    PlainKey(env, j, "title");
    PlainKey(env, j, "description");
    PlainKey(env, j, "required");
    SameRequired(Deep(env, j), j.fields);
  }

  lemma DeepTwice(env: Env, j: Json)
    requires j.Object?
    requires RequiredNames(Deep(env, j)) == RequiredNames(j.fields)
    requires forall k | k in j.fields ::
               EnrichUnder(env, k, Deep(env, j)[k], RequiredNames(j.fields)) == Deep(env, j)[k] <==>
                 SteadyUnder(k, j.fields[k])
    ensures Deep(env, Object(Deep(env, j))) == Deep(env, j) <==> forall k | k in j.fields :: SteadyUnder(k, j.fields[k])
  {
    hide EnrichUnder, SteadyUnder, RequiredNames;
    var once := Deep(env, j);
    var twice := Deep(env, Object(once));
    assert once.Keys == j.fields.Keys == twice.Keys;
    assert forall k | k in once :: twice[k] == EnrichUnder(env, k, once[k], RequiredNames(j.fields));
    if forall k | k in j.fields :: SteadyUnder(k, j.fields[k]) {
      assert twice == once;
    }
    if twice == once {
      forall k | k in j.fields ensures SteadyUnder(k, j.fields[k]) {
        assert twice[k] == once[k];
      }
    }
  }

  /** The second pass over a property changes what the second pass below it changes, and an unsettled title. */
  lemma TextsTwice(env: Env, j: Json, name: string, required: bool)
    requires j.Object?
    ensures var once := Deep(env, j);
            var r := Object(WithTexts(env, j.fields, once, name, required));
            WithTexts(env, r.fields, Deep(env, r), name, required) == r.fields
            <==> Deep(env, Object(once)) == once && !(NonEmpty(Lookup(j.fields, "title")).None? && Wobbly(name))
  {
    hide ParameterTitle, Wobbly, TitleOf, NonEmpty, Describe, RequiredNames, EnrichUnder;
    var once := Deep(env, j);
    var r := Object(WithTexts(env, j.fields, once, name, required));
    var again := WithTexts(env, r.fields, Deep(env, r), name, required);
    PlainKeysStay(env, j);
    PlainKeysStay(env, Object(once));
    PlainKeysStay(env, r);
    TextsSettle(env, j.fields, once, name, required);
    var title := TitleOf(j.fields, name);
    TitleSettles(j.fields, name);
    TitleOfSame(r.fields, map["title" := Text(title)], name);
    DeepOfTexts(env, once, r.fields);
    assert again == Deep(env, r)["title" := Text(TitleOf(r.fields, name))];
    SamePatched(r.fields, Deep(env, r), once, Deep(env, Object(once)), title, TitleOf(r.fields, name));
  }

  lemma SamePatched(f: Fields, deep: Fields, once: Fields, twice: Fields, title: string, title': string)
    requires f.Keys == once.Keys + {"title", "description"} && deep.Keys == f.Keys && twice.Keys == once.Keys
    requires f["title"] == Text(title) && deep["description"] == f["description"]
    requires forall k | k in once && k !in {"title", "description"} :: f[k] == once[k] && deep[k] == twice[k]
    requires forall k | k in once && k in {"title", "description"} :: twice[k] == once[k]
    ensures deep["title" := Text(title')] == f <==> twice == once && title' == title
  {
    var again := deep["title" := Text(title')];
    if again == f {
      assert again["title"] == f["title"];
      forall k | k in once ensures twice[k] == once[k] {
        if k !in {"title", "description"} {
          assert again[k] == f[k];
        }
      }
    }
  }

  /** Enriched texts: the description is told and stays. */
  lemma TextsSettle(env: Env, original: Fields, deep: Fields, name: string, required: bool)
    requires Lookup(deep, "description") == Lookup(original, "description")
    ensures var f := WithTexts(env, original, deep, name, required);
            && NonEmpty(Lookup(f, "description")).Some? && "title" in f && f["title"] == Text(TitleOf(original, name))
            && f.Keys == deep.Keys + {"title", "description"}
            && forall k | k in deep && k !in {"title", "description"} :: f[k] == deep[k]
  {
    var d := Describe(env, TitleOf(original, name), original["title" := Text(TitleOf(original, name))], required);
    TrimStays(d);
    hide TitleOf, Describe;
  }

  /** Going below a property does not look at its texts. */
  lemma DeepOfTexts(env: Env, once: Fields, f: Fields)
    requires f.Keys == once.Keys + {"title", "description"}
    requires forall k | k in once && k !in {"title", "description"} :: f[k] == once[k]
    ensures var a, b := Deep(env, Object(f)), Deep(env, Object(once));
            && a.Keys == f.Keys && b.Keys == once.Keys
            && a["title"] == f["title"] && a["description"] == f["description"]
            && (forall k | k in once && k !in {"title", "description"} :: a[k] == b[k])
            && (forall k | k in once && k in {"title", "description"} :: b[k] == once[k])
  {
    SameRequired(f, once);
  }

  lemma {:induction false} EnrichTwiceUnder(env: Env, key: string, v: Json, required: set<string>)
    ensures var r := EnrichUnder(env, key, v, required);
            EnrichUnder(env, key, r, required) == r <==> SteadyUnder(key, v)
    decreases v, 1
  {
    var r := EnrichUnder(env, key, v, required);
    if key == "properties" && v.Object? {
      forall n | n in v.fields && v.fields[n].Object?
        ensures var once := Enrich(env, v.fields[n], Some(n), n in required);
                Enrich(env, once, Some(n), n in required) == once <==> Steady(v.fields[n], Some(n))
      {
        EnrichTwice(env, v.fields[n], Some(n), n in required);
      }
      var again := EnrichUnder(env, key, r, required);
      assert again.fields.Keys == r.fields.Keys == v.fields.Keys;
      if again == r {
        assert forall n | n in v.fields :: again.fields[n] == r.fields[n];
      }
      if SteadyUnder(key, v) {
        assert again.fields == r.fields;
      }
    } else if key == "items" && v.Object? {
      EnrichTwice(env, v, None, false);
    } else if key in COMPOSITIONS && v.Array? {
      forall i | 0 <= i < |v.items| && v.items[i].Object?
        ensures var once := Enrich(env, v.items[i], None, false);
                Enrich(env, once, None, false) == once <==> Steady(v.items[i], None)
      {
        EnrichTwice(env, v.items[i], None, false);
      }
      var again := EnrichUnder(env, key, r, required);
      assert |again.items| == |r.items| == |v.items|;
      if again == r {
        forall i | 0 <= i < |v.items| ensures Steady(v.items[i], None) {
          assert again.items[i] == r.items[i];
        }
        assert SteadyUnder(key, v);
      }
      if SteadyUnder(key, v) {
        forall i | 0 <= i < |v.items| ensures again.items[i] == r.items[i] {
          assert Steady(v.items[i], None);
        }
        assert again.items == r.items;
      }
    }
  }

  lemma UnderscoreSpace()
    ensures Strip("_ ") == "_" && Strip("_") == "_" && OnlySeparators("_ ")
  {
    assert "_ "[..1] == "_";
  }

  /** What one pass makes of the title. */
  lemma TitleAfter(env: Env, fields: Fields, name: string)
    ensures var r := Enrich(env, Object(fields), Some(name), false);
            "title" in r.fields && r.fields["title"] == Text(TitleOf(fields, name))
  {
    hide TitleOf, Describe;
    EnrichIs(env, Object(fields), Some(name), false);
  }

  /** A property called underscore-space gets that as its title, and the second pass strips it. */
  lemma TitleCanChangeTwice(env: Env)
    ensures var once := Enrich(env, Object(map[]), Some("_ "), false);
            && "title" in once.fields && once.fields["title"] == Text("_ ")
            && var twice := Enrich(env, once, Some("_ "), false);
               "title" in twice.fields && twice.fields["title"] == Text("_")
  {
    hide Enrich, ParameterTitle, Strip;
    UnderscoreSpace();
    ParameterTitleIs("_ ");
    var once := Enrich(env, Object(map[]), Some("_ "), false);
    TitleAfter(env, map[], "_ ");
    TitleAfter(env, once.fields, "_ ");
    assert NonEmpty(Lookup(once.fields, "title")) == Some("_");
  }

  // ----- The whole definition ------------------------------------------------------------------------------------

  datatype Port = Port(description: string, displayName: string, payloadType: string, required: bool, multiple: bool)

  datatype UiField = UiField(description: string, displayName: string, parameterName: string)

  datatype UiGroup = UiGroup(description: string, displayName: string)

  datatype UiSchema = UiSchema(fields: seq<UiField>, groups: seq<UiGroup>)

  datatype Definition = Definition(description: string, displayName: string, inputs: seq<Port>, outputs: seq<Port>,
                                   schema: Json, ui: Option<UiSchema>)

  predicate Blank(s: string) {
    Strip(s) == ""
  }

  function EnrichPort(p: Port, direction: string): Port {
    if !Blank(p.description) then p
    else
      p.(description := (if p.required then "必需" else "可选") + direction + "“" + p.displayName + "”，数据契约为 "
                        + p.payloadType + (if p.multiple then "，允许多个上游连接" else "") + "。")
  }

  function EnrichPorts(ports: seq<Port>, direction: string): (r: seq<Port>)
    ensures |r| == |ports| && forall i | 0 <= i < |ports| :: r[i] == EnrichPort(ports[i], direction)
  {
    seq(|ports|, i requires 0 <= i < |ports| => EnrichPort(ports[i], direction))
  }

  function EnrichUiField(f: UiField, properties: Fields): UiField {
    if !Blank(f.description) then f
    else
      var property := Lookup(properties, f.parameterName);
      var given := if property.Some? && property.value.Object?
                   then NonEmpty(Lookup(property.value.fields, "description")) else None;
      f.(description := if given.Some? then given.value else "配置节点的" + f.displayName + "。")
  }

  function EnrichUiFields(fields: seq<UiField>, properties: Fields): (r: seq<UiField>)
    ensures |r| == |fields| && forall i | 0 <= i < |fields| :: r[i] == EnrichUiField(fields[i], properties)
  {
    seq(|fields|, i requires 0 <= i < |fields| => EnrichUiField(fields[i], properties))
  }

  function EnrichUiGroup(g: UiGroup): UiGroup {
    if !Blank(g.description) then g else g.(description := g.displayName + "相关参数。")
  }

  function EnrichUiGroups(groups: seq<UiGroup>): (r: seq<UiGroup>)
    ensures |r| == |groups| && forall i | 0 <= i < |groups| :: r[i] == EnrichUiGroup(groups[i])
  {
    seq(|groups|, i requires 0 <= i < |groups| => EnrichUiGroup(groups[i]))
  }

  function EnrichUi(ui: Option<UiSchema>, schema: Json): Option<UiSchema>
    requires schema.Object?
  {
    if ui.None? then None
    else
      var properties := Lookup(schema.fields, "properties");
      var known := if properties.Some? && properties.value.Object? then properties.value.fields else map[];
      Some(UiSchema(EnrichUiFields(ui.value.fields, known), EnrichUiGroups(ui.value.groups)))
  }

  /** `enrich_node_definition_metadata`. */
  function EnrichDefinition(env: Env, d: Definition): (r: Definition)
    requires d.schema.Object?
    ensures r.schema.Object?
  {
    var schema := Enrich(env, d.schema, None, false);
    d.(description := if Blank(d.description) then "执行“" + d.displayName + "”节点功能。" else Strip(d.description),
       inputs := EnrichPorts(d.inputs, "输入"), outputs := EnrichPorts(d.outputs, "输出"),
       schema := schema, ui := EnrichUi(d.ui, schema))
  }

  lemma BracketedIsTold(s: string)
    requires s != "" && !IsSpace(s[0]) && !IsSpace(s[|s| - 1])
    ensures Strip(s) == s && !Blank(s)
  {
    TrimStays(s);
  }

  lemma PortTold(p: Port, direction: string)
    requires direction == "输入" || direction == "输出"
    ensures !Blank(EnrichPort(p, direction).description)
  {
    if Blank(p.description) {
      BracketedIsTold(EnrichPort(p, direction).description);
    }
  }

  lemma UiFieldTold(f: UiField, properties: Fields)
    ensures !Blank(EnrichUiField(f, properties).description)
  {
    if Blank(f.description) {
      var d := EnrichUiField(f, properties).description;
      if d == "配置节点的" + f.displayName + "。" {
        BracketedIsTold(d);
      }
    }
  }

  /** A group whose name starts with blanks still ends in a full stop. */
  lemma UiGroupTold(g: UiGroup)
    ensures !Blank(EnrichUiGroup(g).description)
  {
    if Blank(g.description) {
      EndsTold(g.displayName + "相关参数", '。');
      assert g.displayName + "相关参数。" == g.displayName + "相关参数" + ['。'];
    }
  }

  lemma {:induction false} EndsTold(s: string, last: char)
    requires !IsSpace(last)
    ensures !Blank(s + [last])
  {
    if s != "" && IsSpace(s[0]) {
      assert (s + [last])[1..] == s[1..] + [last];
      EndsTold(s[1..], last);
    } else {
      assert StripLeft(s + [last]) == s + [last];
    }
  }

  /** After enriching, everything that carries a description has one, and one that was given stays. */
  lemma DefinitionIsTold(env: Env, d: Definition)
    requires d.schema.Object?
    ensures var r := EnrichDefinition(env, d);
            && !Blank(r.description) && (!Blank(d.description) ==> r.description == Strip(d.description))
            && (forall i | 0 <= i < |d.inputs| :: !Blank(r.inputs[i].description)
                  && (!Blank(d.inputs[i].description) ==> r.inputs[i] == d.inputs[i]))
            && (forall i | 0 <= i < |d.outputs| :: !Blank(r.outputs[i].description)
                  && (!Blank(d.outputs[i].description) ==> r.outputs[i] == d.outputs[i]))
            && Told(r.schema, false) && Respects(d.schema, r.schema, false)
            && Erase(r.schema, false) == Erase(d.schema, false)
            && (r.ui.Some? <==> d.ui.Some?)
            && (d.ui.Some? ==>
                  && (forall i | 0 <= i < |d.ui.value.fields| :: !Blank(r.ui.value.fields[i].description)
                        && (!Blank(d.ui.value.fields[i].description) ==> r.ui.value.fields[i] == d.ui.value.fields[i]))
                  && (forall i | 0 <= i < |d.ui.value.groups| :: !Blank(r.ui.value.groups[i].description)
                        && (!Blank(d.ui.value.groups[i].description) ==> r.ui.value.groups[i] == d.ui.value.groups[i])))
  {
    hide Enrich, Blank, EnrichPort, EnrichUiField, EnrichUiGroup, Told, Respects, Erase, Strip;
    EnrichTells(env, d.schema, None, false);
    EnrichRespects(env, d.schema, None, false);
    EnrichConserves(env, d.schema, None, false);
    DescriptionTold(d);
    PortsTold(d.inputs, "输入");
    PortsTold(d.outputs, "输出");
    if d.ui.Some? {
      UiTold(d.ui, Enrich(env, d.schema, None, false));
    }
  }

  lemma DescriptionTold(d: Definition)
    ensures !Blank("执行“" + d.displayName + "”节点功能。")
    ensures Strip("执行“" + d.displayName + "”节点功能。") == "执行“" + d.displayName + "”节点功能。"
    ensures !Blank(d.description) ==>
              !Blank(Strip(d.description)) && Strip(Strip(d.description)) == Strip(d.description)
  {
    BracketedIsTold("执行“" + d.displayName + "”节点功能。");
    StripIsTrim(d.description);
  }

  lemma PortsTold(ports: seq<Port>, direction: string)
    requires direction == "输入" || direction == "输出"
    ensures var r := EnrichPorts(ports, direction);
            && (forall i | 0 <= i < |ports| ::
                  !Blank(r[i].description) && (!Blank(ports[i].description) ==> r[i] == ports[i]))
            && EnrichPorts(r, direction) == r
  {
    forall i | 0 <= i < |ports| ensures !Blank(EnrichPort(ports[i], direction).description) {
      PortTold(ports[i], direction);
    }
  }

  lemma UiTold(ui: Option<UiSchema>, schema: Json)
    requires ui.Some? && schema.Object?
    ensures EnrichUi(ui, schema).Some?
    ensures var r := EnrichUi(ui, schema).value;
            && |r.fields| == |ui.value.fields| && |r.groups| == |ui.value.groups|
            && (forall i | 0 <= i < |r.fields| :: !Blank(r.fields[i].description)
                  && (!Blank(ui.value.fields[i].description) ==> r.fields[i] == ui.value.fields[i]))
            && (forall i | 0 <= i < |r.groups| :: !Blank(r.groups[i].description)
                  && (!Blank(ui.value.groups[i].description) ==> r.groups[i] == ui.value.groups[i]))
            && (forall other: Json | other.Object? :: EnrichUi(Some(r), other) == Some(r))
  {
    hide Blank;
    var r := EnrichUi(ui, schema).value;
    forall f: UiField, properties ensures !Blank(EnrichUiField(f, properties).description) {
      UiFieldTold(f, properties);
    }
    forall g: UiGroup ensures !Blank(EnrichUiGroup(g).description) {
      UiGroupTold(g);
    }
    forall other: Json | other.Object? ensures EnrichUi(Some(r), other) == Some(r) {
      var again := EnrichUi(Some(r), other).value;
      assert again.fields == r.fields && again.groups == r.groups;
    }
  }

  /** Enriching a definition twice changes nothing more exactly when its parameter schema is steady: ports,
      fields, groups and the description always settle. */
  lemma DefinitionTwice(env: Env, d: Definition)
    requires d.schema.Object?
    ensures var r := EnrichDefinition(env, d);
            EnrichDefinition(env, r) == r <==> Steady(d.schema, None)
  {
    hide Enrich, Blank, EnrichPort, EnrichUi, Steady, Strip;
    var r := EnrichDefinition(env, d);
    EnrichTwice(env, d.schema, None, false);
    DescriptionTold(d);
    PortsTold(d.inputs, "输入");
    PortsTold(d.outputs, "输出");
    assert EnrichPorts(r.inputs, "输入") == r.inputs && EnrichPorts(r.outputs, "输出") == r.outputs;
    if d.ui.Some? {
      UiTold(d.ui, Enrich(env, d.schema, None, false));
      assert r.ui == Some(EnrichUi(d.ui, Enrich(env, d.schema, None, false)).value);
      assert EnrichUi(r.ui, Enrich(env, r.schema, None, false)) == r.ui;
    } else {
      NoUi(r.schema);
      NoUi(Enrich(env, r.schema, None, false));
      NoUi(Enrich(env, d.schema, None, false));
    }
  }

  lemma NoUi(schema: Json)
    requires schema.Object?
    ensures EnrichUi(None, schema) == None
  {
  }
}
