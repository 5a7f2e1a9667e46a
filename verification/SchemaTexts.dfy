/**
 What the generated texts say: a title keeps the letters of its name, and a description opens with the title, says
 whether the surrounding schema requires the parameter, and lists exactly the constraints that are set.
 */
module SchemaTexts {
  import opened Common
  import opened TextTools
  import opened SchemaEnrichment

  // ----- Titles -----------------------------------------------------------------------------------------------

  /** A text without separators, in small letters. */
  function Letters(s: string): string {
    if s == "" then "" else (if IsSeparator(s[0]) then "" else Lower(s[..1])) + Letters(s[1..])
  }

  lemma {:induction false} LettersAppend(a: string, b: string)
    ensures Letters(a + b) == Letters(a) + Letters(b)
  {
    hide IsSeparator;
    if a == "" {
      assert a + b == b;
    } else {
      assert (a + b)[1..] == a[1..] + b && (a + b)[..1] == a[..1];
      LettersAppend(a[1..], b);
    }
  }

  lemma {:induction false} StrippedLeft(s: string)
    ensures Letters(StripLeft(s)) == Letters(s)
  {
    if s != "" && IsSpace(s[0]) {
      StrippedLeft(s[1..]);
    }
  }

  lemma {:induction false} StrippedRight(s: string)
    ensures Letters(StripRight(s)) == Letters(s)
    decreases |s|
  {
    if s != "" && IsSpace(s[|s| - 1]) {
      var n := |s| - 1;
      StrippedRight(s[..n]);
      assert s == s[..n] + [s[n]];
      LettersAppend(s[..n], [s[n]]);
      assert Letters([s[n]]) == "";
    }
  }

  lemma {:induction false} SpelledOut(s: string)
    requires NoSeparator(s)
    ensures Letters(s) == Lower(s)
  {
    hide IsSeparator;
    if s != "" {
      assert s == [s[0]] + s[1..];
      SpelledOut(s[1..]);
    }
  }

  function AllLetters(words: seq<string>): string {
    if words == [] then "" else Letters(words[0]) + AllLetters(words[1..])
  }

  lemma {:induction false} JoinedLetters(words: seq<string>)
    ensures Letters(JoinWith(words, " ")) == AllLetters(words)
  {
    hide IsSeparator;
    if |words| == 1 {
      assert AllLetters(words[1..]) == "";
    } else if words != [] {
      var rest := JoinWith(words[1..], " ");
      JoinedLetters(words[1..]);
      BlankHasNone();
      LettersAppend(words[0] + " ", rest);
      LettersAppend(words[0], " ");
      assert Letters(words[0] + " ") == Letters(words[0]);
    }
  }

  lemma BlankHasNone()
    ensures Letters(" ") == ""
  {
  }

  lemma {:induction false} SplitLetters(s: string, word: string)
    requires NoSeparator(word)
    ensures AllLetters(WordsFrom(s, word)) == Letters(word + s)
    decreases |s|
  {
    hide IsSeparator;
    if s == "" {
      assert word + s == word;
      assert AllLetters([word]) == Letters(word) + AllLetters([]);
    } else if IsSeparator(s[0]) {
      SplitLetters(s[1..], "");
      LettersAppend(word, s);
      assert "" + s[1..] == s[1..];
      var rest := WordsFrom(s[1..], "");
      assert Letters(s) == Letters(s[1..]);
      if word == "" {
        assert [] + rest == rest && Letters(word) == "";
      } else {
        assert ([word] + rest)[1..] == rest;
      }
    } else {
      SplitLetters(s[1..], word + [s[0]]);
      assert word + [s[0]] + s[1..] == word + s;
    }
  }

  lemma TitleWordLetters(word: string)
    requires word != "" && NoSeparator(word)
    ensures NoSeparator(TitleWord(word)) && Letters(TitleWord(word)) == Letters(word)
  {
    TitleWordIs(word);
    var t := TitleWord(word);
    forall i | 0 <= i < |word| ensures !IsSeparator(t[i]) {
      assert !IsSeparator(word[i]) && Lower(t)[i] == Lower(word)[i];
    }
    SpelledOut(word);
    SpelledOut(t);
  }

  lemma {:induction false} TitleWordsLetters(words: seq<string>)
    requires forall i | 0 <= i < |words| :: words[i] != "" && NoSeparator(words[i])
    ensures AllLetters(TitleWords(words)) == AllLetters(words)
  {
    hide TitleWord, NoSeparator;
    if words != [] {
      TitleWordLetters(words[0]);
      TitleWordsLetters(words[1..]);
      assert TitleWords(words)[1..] == TitleWords(words[1..]);
    }
  }

  /** A name that is not in the table keeps its letters in its title, in order. */
  lemma TitleKeepsLetters(name: string)
    requires Lower(name) !in TITLES
    ensures Letters(ParameterTitle(name)) == Letters(name)
  {
    hide Letters, AllLetters, WordsFrom, JoinWith, TitleWord, StripLeft, StripRight, IsSeparator;
    StrippedLeft(name);
    StrippedRight(StripLeft(name));
    WordsAre(Strip(name), "");
    SplitLetters(Strip(name), "");
    assert "" + Strip(name) == Strip(name);
    var words := WordsFrom(Strip(name), "");
    TitleWordsLetters(words);
    JoinedLetters(TitleWords(words));
  }

  /** An acronym in capitals; any other word as it is, except that it does not begin with a small letter. */
  predicate Titled(word: string, shown: string) {
    && |shown| == |word| && shown != ""
    && (if Lower(word) in ACRONYMS then
          Lower(shown) == Lower(word) && forall i | 0 <= i < |shown| :: !IsLowerLetter(shown[i])
        else Lower(shown) == Lower(word) && shown[1..] == word[1..] && !IsLowerLetter(shown[0]))
  }

  lemma TitleWordIs(word: string)
    requires word != ""
    ensures Titled(word, TitleWord(word))
  {
  }

  lemma {:induction false} ReadWord(word: string, rest: string, read: string)
    requires NoSeparator(word) && (rest == "" || IsSeparator(rest[0]))
    ensures WordsFrom(word + rest, read) == WordsFrom(rest, read + word)
    decreases |word|
  {
    if word == "" {
      assert word + rest == rest && read + word == read;
    } else {
      assert (word + rest)[1..] == word[1..] + rest && (word + rest)[0] == word[0];
      assert read + [word[0]] + word[1..] == read + word;
      ReadWord(word[1..], rest, read + [word[0]]);
    }
  }

  lemma {:induction false} JoinedAreRead(words: seq<string>)
    requires forall i | 0 <= i < |words| :: words[i] != "" && NoSeparator(words[i])
    ensures WordsFrom(JoinWith(words, " "), "") == words
  {
    if |words| == 1 {
      ReadWord(words[0], "", "");
      assert words[0] + "" == words[0] && "" + words[0] == words[0];
    } else if words != [] {
      var rest := JoinWith(words[1..], " ");
      JoinedAreRead(words[1..]);
      ReadWord(words[0], " " + rest, "");
      assert words[0] + " " + rest == words[0] + (" " + rest) && "" + words[0] == words[0];
      assert (" " + rest)[1..] == rest;
      assert words == [words[0]] + words[1..];
    }
  }

  /** The words of a title made from a name are those of the name, in order, in the case of titles. */
  lemma TitleIsTitled(name: string)
    requires Lower(name) !in TITLES && !OnlySeparators(name)
    ensures var words, shown := WordsFrom(Strip(name), ""), WordsFrom(ParameterTitle(name), "");
            |shown| == |words| && forall i | 0 <= i < |words| :: Titled(words[i], shown[i])
  {
    hide WordsFrom, JoinWith, TitleWord, Strip, NoSeparator, IsSeparator, Titled;
    NothingRead();
    WordsAre(Strip(name), "");
    StripKeepsSeparators(name);
    var words := WordsFrom(Strip(name), "");
    forall i | 0 <= i < |words|
      ensures TitleWords(words)[i] != "" && NoSeparator(TitleWords(words)[i]) && Trim(TitleWords(words)[i])
    {
      TitleWordLetters(words[i]);
      TitleWordIsTrim(words[i]);
    }
    forall i | 0 <= i < |words| ensures Titled(words[i], TitleWords(words)[i]) {
      TitleWordIs(words[i]);
    }
    JoinedAreRead(TitleWords(words));
    ParameterTitleIs(name);
    JoinIsTrim(TitleWords(words), " ");
  }

  lemma NothingRead()
    ensures NoSeparator("")
  {
  }

  // ----- Descriptions -------------------------------------------------------------------------------------------

  function Listed(clauses: seq<string>): string {
    if clauses == [] then "" else "；" + clauses[0] + Listed(clauses[1..])
  }

  function Sentence(title: string, clauses: seq<string>): string {
    "配置节点的" + title + Listed(clauses) + "。"
  }

  /** A bound under its usual key, or under the exclusive one; a null is none. */
  function Bounded(fields: Fields, key: string, exclusive: string): Option<Json> {
    var given := if key in fields then fields[key] else if exclusive in fields then fields[exclusive] else Null;
    if given.Null? then None else Some(given)
  }

  /** `c` says something that is so: required or not, the type, the choices, the default and the bounds. */
  predicate Worth(env: Env, fields: Fields, required: bool, c: string) {
    var low, high := Bounded(fields, "minimum", "exclusiveMinimum"), Bounded(fields, "maximum", "exclusiveMaximum");
    || (required && c == "必填参数")
    || (!required && c == "可选参数")
    || ("type" in fields && fields["type"].Text? && c == "类型为" + TypeName(fields["type"].text))
    || ("type" in fields && fields["type"].Array? && (exists t | t in fields["type"].items :: t.Text?)
        && c == "类型为" + JoinWith(TypeNames(fields["type"].items), "或"))
    || ("enum" in fields && fields["enum"].Array? && fields["enum"].items != []
        && c == "可选值：" + JoinWith(ShortenAll(env, fields["enum"].items), ", "))
    || ("default" in fields && c == "默认值：" + Shorten(env, fields["default"]))
    || (low.Some? && high.Some? && c == "范围：" + Shorten(env, low.value) + " 至 " + Shorten(env, high.value))
    || (low.Some? && high.None? && c == "最小值：" + Shorten(env, low.value))
    || (low.None? && high.Some? && c == "最大值：" + Shorten(env, high.value))
  }

  /** The text is the sentence of exactly the clauses worth telling. */
  ghost predicate Says(env: Env, text: string, title: string, fields: Fields, required: bool) {
    exists clauses: seq<string> ::
      text == Sentence(title, clauses) && clauses != [] && forall c :: c in clauses <==> Worth(env, fields, required, c)
  }

  lemma {:induction false} ListedIs(clauses: seq<string>)
    requires clauses != []
    ensures Listed(clauses) == "；" + JoinWith(clauses, "；")
  {
    if |clauses| > 1 {
      ListedIs(clauses[1..]);
    } else {
      assert Listed(clauses[1..]) == "";
    }
  }

  lemma {:induction false} NoTypeNames(items: seq<Json>)
    ensures TypeNames(items) == [] <==> forall t | t in items :: !t.Text?
  {
    if items != [] {
      NoTypeNames(items[1..]);
      assert items[0] in items;
      assert forall t :: t in items <==> t == items[0] || t in items[1..];
    }
  }

  lemma DetailsAre(env: Env, fields: Fields, required: bool)
    ensures Details(env, fields, required) != []
    ensures forall c :: c in Details(env, fields, required) <==> Worth(env, fields, required, c)
  {
    hide JoinWith, TypeNames, ShortenAll, Shorten, TypeName;
    if "type" in fields && fields["type"].Array? {
      NoTypeNames(fields["type"].items);
    }
  }

  /** What a generated description says. */
  lemma DescribeSays(env: Env, title: string, fields: Fields, required: bool)
    ensures Says(env, Describe(env, title, fields, required), title, fields, required)
  {
    hide Details, Worth;
    var clauses := Details(env, fields, required);
    DetailsAre(env, fields, required);
    ListedIs(clauses);
    assert Describe(env, title, fields, required) == Sentence(title, clauses);
  }

  /** A value is shown as it prints, or by its first 117 characters and three dots, never with more than 120; and of a
      list every value is shown, in order. */
  lemma {:induction false} ValuesAreShown(env: Env, items: seq<Json>)
    ensures |ShortenAll(env, items)| == |items|
    ensures forall i | 0 <= i < |items| ::
              var shown, text := ShortenAll(env, items)[i], env.dumps(items[i]);
              && shown == Shorten(env, items[i]) && |shown| <= 120
              && (|text| <= 120 ==> shown == text)
              && (|text| > 120 ==> |shown| == 120 && shown[..117] == text[..117] && shown[117..] == "...")
  {
    if items != [] {
      ValuesAreShown(env, items[1..]);
      assert forall i | 0 < i < |items| :: items[i] == items[1..][i - 1];
    }
  }

  /** Of a list of types the texts are named, in order; other values are passed over. */
  lemma {:induction false} TypesAreNamed(items: seq<Json>, v: Json)
    ensures TypeNames([]) == []
    ensures TypeNames(items + [v])
            == TypeNames(items)
               + (if !v.Text? then [] else if v.text in TYPE_NAMES then [TYPE_NAMES[v.text]] else [v.text])
  {
    NameOfType(v);
    hide TypeName;
    if items != [] {
      assert (items + [v])[1..] == items[1..] + [v] && (items + [v])[0] == items[0];
      TypesAreNamed(items[1..], v);
    }
  }

  lemma NameOfType(v: Json)
    ensures TypeNames([v])
            == if !v.Text? then [] else if v.text in TYPE_NAMES then [TYPE_NAMES[v.text]] else [v.text]
    ensures [] + [v] == [v]
  {
    assert TypeNames([v][1..]) == [];
  }

  // ----- At every depth -----------------------------------------------------------------------------------------

  predicate Requires(fields: Fields, name: string) {
    "required" in fields && fields["required"].Array? && Text(name) in fields["required"].items
  }

  /** Every property has the title given or made from its name, and where it had no description one that says what its
      schema sets, as required exactly where the schema around it requires it. */
  ghost predicate Marked(env: Env, before: Json, after: Json, name: Option<string>, required: bool)
    decreases before, 0
  {
    before.Object? ==>
      && after.Object?
      && (name.Some? ==>
            var given := NonEmpty(Lookup(before.fields, "title"));
            var title := if given.Some? then given.value else ParameterTitle(name.value);
            && Lookup(after.fields, "title") == Some(Text(title))
            && (NonEmpty(Lookup(before.fields, "description")).None? ==>
                  "description" in after.fields && after.fields["description"].Text?
                  && Says(env, after.fields["description"].text, title, before.fields, required)))
      && (forall k | k in before.fields && k !in {"title", "description"} ::
            k in after.fields && MarkedUnder(env, k, before.fields[k], after.fields[k], before.fields))
  }

  ghost predicate MarkedUnder(env: Env, key: string, before: Json, after: Json, around: Fields)
    decreases before, 1
  {
    && (key == "properties" && before.Object? ==>
          after.Object? && forall n | n in before.fields ::
            n in after.fields && Marked(env, before.fields[n], after.fields[n], Some(n), Requires(around, n)))
    && (key == "items" ==> Marked(env, before, after, None, false))
    && (key in COMPOSITIONS && before.Array? ==>
          after.Array? && |after.items| == |before.items|
          && forall i | 0 <= i < |before.items| :: Marked(env, before.items[i], after.items[i], None, false))
  }

  lemma RequiredNamesAre(fields: Fields, name: string)
    ensures name in RequiredNames(fields) <==> Requires(fields, name)
  {
    if Requires(fields, name) {
      var i :| 0 <= i < |fields["required"].items| && fields["required"].items[i] == Text(name);
    }
  }

  lemma TextsSay(env: Env, original: Fields, deep: Fields, name: string, required: bool)
    requires NonEmpty(Lookup(original, "description")).None?
    ensures var title := TitleOf(original, name);
            var d := WithTexts(env, original, deep, name, required)["description"];
            d.Text? && Says(env, d.text, title, original, required)
  {
    hide Worth, ParameterTitle, NonEmpty, Describe;
    var title := TitleOf(original, name);
    var titled := original["title" := Text(title)];
    DescribeSays(env, title, titled, required);
    var text := Describe(env, title, titled, required);
    var clauses :| text == Sentence(title, clauses) && clauses != []
                   && forall c :: c in clauses <==> Worth(env, titled, required, c);
    forall c ensures Worth(env, titled, required, c) <==> Worth(env, original, required, c) {
      TitleIsNoConstraint(env, original, title, required, c);
    }
  }

  lemma TitleIsNoConstraint(env: Env, fields: Fields, title: string, required: bool, c: string)
    ensures Worth(env, fields["title" := Text(title)], required, c) <==> Worth(env, fields, required, c)
  {
    hide JoinWith, TypeNames, ShortenAll, Shorten, TypeName;
  }

  /** What enriching writes, at every depth. */
  lemma {:induction false} EnrichMarks(env: Env, j: Json, name: Option<string>, required: bool)
    requires j.Object?
    ensures Marked(env, j, Enrich(env, j, name, required), name, required)
    decreases j, 0
  {
    EnrichIs(env, j, name, required);
    forall k | k in j.fields ensures MarkedUnder(env, k, j.fields[k], Deep(env, j)[k], j.fields) {
      EnrichMarksUnder(env, k, j.fields[k], j.fields);
    }
    TextsMark(env, j, Deep(env, j), name, required);
  }

  lemma TextsMark(env: Env, j: Json, deep: Fields, name: Option<string>, required: bool)
    requires j.Object? && deep.Keys == j.fields.Keys
    requires forall k | k in deep :: MarkedUnder(env, k, j.fields[k], deep[k], j.fields)
    ensures Marked(env, j, Object(if name.None? then deep else WithTexts(env, j.fields, deep, name.value, required)),
                   name, required)
  {
    if name.Some? && NonEmpty(Lookup(j.fields, "description")).None? {
      TextsSay(env, j.fields, deep, name.value, required);
    }
    hide MarkedUnder, ParameterTitle, Describe, NonEmpty, Says;
  }

  lemma {:induction false} EnrichMarksUnder(env: Env, key: string, v: Json, around: Fields)
    ensures MarkedUnder(env, key, v, EnrichUnder(env, key, v, RequiredNames(around)), around)
    decreases v, 1
  {
    var required := RequiredNames(around);
    if key == "properties" && v.Object? {
      forall n | n in v.fields && v.fields[n].Object?
        ensures Marked(env, v.fields[n], Enrich(env, v.fields[n], Some(n), n in required), Some(n), Requires(around, n))
      {
        RequiredNamesAre(around, n);
        EnrichMarks(env, v.fields[n], Some(n), n in required);
      }
    } else if key == "items" && v.Object? {
      EnrichMarks(env, v, None, false);
    } else if key in COMPOSITIONS && v.Array? {
      forall i | 0 <= i < |v.items| && v.items[i].Object?
        ensures Marked(env, v.items[i], Enrich(env, v.items[i], None, false), None, false)
      {
        EnrichMarks(env, v.items[i], None, false);
      }
    }
  }

  // ----- The whole definition -------------------------------------------------------------------------------------

  /** A port keeps a description that is not blank; else it tells whether it is required, its direction, its name, its
      type and whether it takes several connections. Nothing else of it changes. */
  predicate PortTo(p: Port, q: Port, direction: string) {
    var told := direction + "“" + p.displayName + "”，数据契约为 " + p.payloadType;
    && q == p.(description := q.description)
    && (!Blank(p.description) ==> q == p)
    && (Blank(p.description) ==>
          q.description == match (p.required, p.multiple)
                           case (true, true) => "必需" + told + "，允许多个上游连接。"
                           case (true, false) => "必需" + told + "。"
                           case (false, true) => "可选" + told + "，允许多个上游连接。"
                           case (false, false) => "可选" + told + "。")
  }

  lemma PortSays(p: Port, direction: string)
    ensures PortTo(p, EnrichPort(p, direction), direction)
  {
    if Blank(p.description) {
      var start, told := if p.required then "必需" else "可选",
                         direction + "“" + p.displayName + "”，数据契约为 " + p.payloadType;
      assert start + direction + "“" + p.displayName + "”，数据契约为 " + p.payloadType == start + told;
      if p.multiple {
        assert start + told + "，允许多个上游连接" + "。" == start + told + "，允许多个上游连接。";
      } else {
        assert start + told + "" + "。" == start + told + "。";
      }
    }
  }

  /** The schema describes this parameter so. */
  predicate Describes(schema: Json, name: string, text: string) {
    && schema.Object? && "properties" in schema.fields && schema.fields["properties"].Object?
    && var properties := schema.fields["properties"].fields;
       && name in properties && properties[name].Object? && "description" in properties[name].fields
       && properties[name].fields["description"].Text?
       && Strip(properties[name].fields["description"].text) == text && text != ""
  }

  /** A form field keeps a description that is not blank, else it has its parameter's, else one of its own name. */
  ghost predicate FieldTo(f: UiField, g: UiField, schema: Json) {
    && g == f.(description := g.description)
    && (!Blank(f.description) ==> g == f)
    && (Blank(f.description) ==>
          || Describes(schema, f.parameterName, g.description)
          || ((forall text :: !Describes(schema, f.parameterName, text))
              && g.description == "配置节点的" + f.displayName + "。"))
  }

  lemma FieldSays(ui: UiSchema, schema: Json, i: nat)
    requires schema.Object? && i < |ui.fields|
    ensures EnrichUi(Some(ui), schema).Some?
            && FieldTo(ui.fields[i], EnrichUi(Some(ui), schema).value.fields[i], schema)
  {
    hide Strip;
  }

  predicate GroupTo(g: UiGroup, h: UiGroup) {
    h == if Blank(g.description) then UiGroup(g.displayName + "相关参数。", g.displayName) else g
  }

  /** What a whole definition becomes: the form takes its texts from the enriched schema. */
  lemma DefinitionSays(env: Env, d: Definition)
    requires d.schema.Object?
    ensures var r := EnrichDefinition(env, d);
            && r.displayName == d.displayName && Marked(env, d.schema, r.schema, None, false)
            && r.description == (if Blank(d.description) then "执行“" + d.displayName + "”节点功能。"
                                 else Strip(d.description))
            && |r.inputs| == |d.inputs| && (forall i | 0 <= i < |d.inputs| :: PortTo(d.inputs[i], r.inputs[i], "输入"))
            && |r.outputs| == |d.outputs|
            && (forall i | 0 <= i < |d.outputs| :: PortTo(d.outputs[i], r.outputs[i], "输出"))
            && (r.ui.Some? <==> d.ui.Some?)
            && (d.ui.Some? ==>
                  var a, b := d.ui.value, r.ui.value;
                  && |b.fields| == |a.fields| && |b.groups| == |a.groups|
                  && (forall i | 0 <= i < |a.fields| :: FieldTo(a.fields[i], b.fields[i], r.schema))
                  && (forall i | 0 <= i < |a.groups| :: GroupTo(a.groups[i], b.groups[i])))
  {
    hide Enrich, EnrichPort, PortTo, FieldTo, Blank, Strip, Marked;
    EnrichMarks(env, d.schema, None, false);
    var r := EnrichDefinition(env, d);
    forall p: Port, direction ensures PortTo(p, EnrichPort(p, direction), direction) {
      PortSays(p, direction);
    }
    if d.ui.Some? {
      forall i: nat | i < |d.ui.value.fields|
        ensures FieldTo(d.ui.value.fields[i], r.ui.value.fields[i], r.schema)
      {
        FieldSays(d.ui.value, r.schema, i);
      }
    }
  }
}
