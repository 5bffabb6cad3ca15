/** The types of JSON values by their constructors: what the names in markers stand for. */
module GoldenKinds {
  import opened Text
  import opened Json
  import opened Golden

  /** A text that stands for a value of another type. */
  predicate Masks(v: Json) {
    || v == Str("<masked:array>") || v == Str("<masked:boolean>") || v == Str("<masked:null>")
    || v == Str("<masked:number>") || v == Str("<masked:object>") || v == Str("<masked:string>")
  }

  /** The value is of the type, or is a text that is masked as one of it. */
  predicate IsKind(v: Json, name: string) {
    if Masks(v) then v == Str("<masked:" + name + ">")
    else
      || (name == "array" && v.Arr?) || (name == "boolean" && v.Bool?) || (name == "null" && v.Null?)
      || (name == "number" && v.Num?) || (name == "object" && v.Obj?) || (name == "string" && v.Str?)
  }

  /** The six names, written out. */
  predicate IsTypeName(name: string) {
    name == "array" || name == "boolean" || name == "null" || name == "number" || name == "object" || name == "string"
  }

  lemma TypeNamesAre(name: string)
    ensures name in TYPE_NAMES <==> IsTypeName(name)
  {
    assert TYPE_NAMES[0] == "array" && TYPE_NAMES[1] == "boolean" && TYPE_NAMES[2] == "null";
    assert TYPE_NAMES[3] == "number" && TYPE_NAMES[4] == "object" && TYPE_NAMES[5] == "string";
  }

  /** The text between the brackets of a mask. */
  lemma {:induction false} MaskReads(s: string, name: string)
    requires |s| > |MASKED_PREFIX| && StartsWith(s, MASKED_PREFIX) && EndsWith(s, ">")
    ensures s[|MASKED_PREFIX|..|s| - 1] == name <==> s == "<masked:" + name + ">"
  {
    var p := "<masked:";
    assert s[|s| - 1..] == ">" && s[..|p|] == p;
    assert s == p + s[|p|..|s| - 1] + ">";
    var t := p + name + ">";
    assert t[|p|..|t| - 1] == name;
  }

  lemma {:induction false} MaskShape(name: string)
    ensures
      var s := "<masked:" + name + ">";
      |s| > |MASKED_PREFIX| && StartsWith(s, MASKED_PREFIX) && EndsWith(s, ">") && s[|MASKED_PREFIX|..|s| - 1] == name
  {
    var s := "<masked:" + name + ">";
    assert s[..|MASKED_PREFIX|] == MASKED_PREFIX && s[|s| - 1..] == ">";
  }

  lemma {:induction false} MasksAre(v: Json)
    ensures Masks(v) <==>
      && v.Str? && |v.s| > |MASKED_PREFIX| && StartsWith(v.s, MASKED_PREFIX) && EndsWith(v.s, ">")
      && v.s[|MASKED_PREFIX|..|v.s| - 1] in TYPE_NAMES
  {
    hide StartsWith, EndsWith;
    if Masks(v) {
      MasksNamed(v);
      var name :| IsTypeName(name) && v.s == "<masked:" + name + ">";
      MaskShape(name);
      TypeNamesAre(name);
    }
    if v.Str? && |v.s| > |MASKED_PREFIX| && StartsWith(v.s, MASKED_PREFIX) && EndsWith(v.s, ">") {
      var name := v.s[|MASKED_PREFIX|..|v.s| - 1];
      TypeNamesAre(name);
      MaskReads(v.s, name);
      if IsTypeName(name) {
        NamedMasks(v, name);
      }
    }
  }

  lemma MasksNamed(v: Json)
    requires Masks(v)
    ensures v.Str? && exists name :: IsTypeName(name) && v.s == "<masked:" + name + ">"
  {
    assert "<masked:" + "array" + ">" == "<masked:array>" && "<masked:" + "boolean" + ">" == "<masked:boolean>";
    assert "<masked:" + "null" + ">" == "<masked:null>" && "<masked:" + "number" + ">" == "<masked:number>";
    assert "<masked:" + "object" + ">" == "<masked:object>" && "<masked:" + "string" + ">" == "<masked:string>";
    assert IsTypeName("array") && IsTypeName("boolean") && IsTypeName("null");
    assert IsTypeName("number") && IsTypeName("object") && IsTypeName("string");
  }

  lemma NamedMasks(v: Json, name: string)
    requires IsTypeName(name) && v == Str("<masked:" + name + ">")
    ensures Masks(v)
  {
    assert "<masked:" + "array" + ">" == "<masked:array>" && "<masked:" + "boolean" + ">" == "<masked:boolean>";
    assert "<masked:" + "null" + ">" == "<masked:null>" && "<masked:" + "number" + ">" == "<masked:number>";
    assert "<masked:" + "object" + ">" == "<masked:object>" && "<masked:" + "string" + ">" == "<masked:string>";
  }

  /** `value_type` names the type that a value is of. */
  lemma {:induction false} TypeIsKind(v: Json, name: string)
    ensures ValueType(v) == name <==> IsKind(v, name)
  {
    hide StartsWith, EndsWith, Masks;
    MasksAre(v);
    if Masks(v) {
      MaskReads(v.s, name);
    }
  }

  /** The two values are of one type. */
  ghost predicate SameKind(v: Json, w: Json) {
    exists name :: IsKind(v, name) && IsKind(w, name)
  }

  lemma {:induction false} SameKindIs(v: Json, w: Json)
    ensures SameKind(v, w) <==> ValueType(v) == ValueType(w)
  {
    hide IsKind;
    TypeIsKind(v, ValueType(v));
    TypeIsKind(w, ValueType(v));
    if SameKind(v, w) {
      var name :| IsKind(v, name) && IsKind(w, name);
      TypeIsKind(v, name);
      TypeIsKind(w, name);
    }
  }
}
