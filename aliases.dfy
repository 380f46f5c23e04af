/**
 * The alias extractor (`extract_aliases`): the set of textual forms a
 * permissible value accepts as the label of its ontology term.
 */
module Aliases {
  import opened Wrappers
  import opened Schema

  /** The annotation keys read as extra alias sources, in the order they are visited. */
  const AliasKeys: seq<string> := ["label", "display_name", "preferred_name", "synonym"]

  /**
   * The form an annotation value contributes: an annotation object always
   * contributes its `.value`; a bare value only when it is truthy.
   */
  function AnnotationForm(v: AnnotationValue): (r: Option<string>)
    ensures v.Wrapped? ==> r == Some(v.value)
    ensures v.Plain? ==> (r.Some? <==> v.text != "") && (r.Some? ==> r.value == v.text)
  {
    match v
    case Wrapped(x) => Some(x)
    case Plain(t) => if t != "" then Some(t) else None
  }

  /** The truthy `literal_form`s of some structured aliases. */
  function LiteralForms(sas: seq<StructuredAlias>): set<string> {
    set sa | sa in sas && Truthy(sa.literalForm) :: sa.literalForm.value
  }

  /** The forms contributed by the annotations under `keys`. */
  function AnnotationForms(ann: map<string, AnnotationValue>, keys: seq<string>): set<string> {
    set k | k in keys && k in ann && AnnotationForm(ann[k]).Some? :: AnnotationForm(ann[k]).value
  }

  /** The accepted forms of value `name`: what `extract_aliases` returns. */
  function AcceptedForms(pv: PermissibleValue, name: string): (r: set<string>)
    ensures name in r
    ensures Truthy(pv.title) ==> pv.title.value in r
    ensures forall a :: a in pv.aliases ==> a in r
    ensures forall j :: 0 <= j < |pv.structuredAliases| && Truthy(pv.structuredAliases[j].literalForm) ==>
      pv.structuredAliases[j].literalForm.value in r
    ensures forall k :: k in AliasKeys && k in pv.annotations && AnnotationForm(pv.annotations[k]).Some? ==>
      AnnotationForm(pv.annotations[k]).value in r
  {
    {name}
    + (if Truthy(pv.title) then {pv.title.value} else {})
    + (set a | a in pv.aliases)
    + LiteralForms(pv.structuredAliases)
    + AnnotationForms(pv.annotations, AliasKeys)
  }

  /** The accepted forms come from nowhere but the name, title, aliases, literal forms and the four annotation keys. */
  lemma AcceptedFormsOnly(pv: PermissibleValue, name: string, x: string)
    requires x in AcceptedForms(pv, name)
    ensures || x == name
            || (Truthy(pv.title) && x == pv.title.value)
            || x in pv.aliases
            || (exists j :: 0 <= j < |pv.structuredAliases| && pv.structuredAliases[j].literalForm == Some(x))
            || (exists k :: k in AliasKeys && k in pv.annotations && AnnotationForm(pv.annotations[k]) == Some(x))
  {
    if x in LiteralForms(pv.structuredAliases) {
      var sa :| sa in pv.structuredAliases && Truthy(sa.literalForm) && sa.literalForm.value == x;
      var j :| 0 <= j < |pv.structuredAliases| && pv.structuredAliases[j] == sa;
    }
  }

  /** `extract_aliases`, built step by step as the source does. */
  method ExtractAliases(pv: PermissibleValue, name: string) returns (forms: set<string>)
    ensures forms == AcceptedForms(pv, name)
  {
    forms := {name};
    if Truthy(pv.title) {
      forms := forms + {pv.title.value};
    }
    forms := forms + (set a | a in pv.aliases);
    ghost var base := forms;

    var sas := pv.structuredAliases;
    for i := 0 to |sas|
      invariant forms == base + LiteralForms(sas[..i])
    {
      assert sas[..i + 1] == sas[..i] + [sas[i]];
      if Truthy(sas[i].literalForm) {
        forms := forms + {sas[i].literalForm.value};
      }
    }
    assert sas[..|sas|] == sas;
    ghost var base' := forms;

    for i := 0 to |AliasKeys|
      invariant forms == base' + AnnotationForms(pv.annotations, AliasKeys[..i])
    {
      var key := AliasKeys[i];
      assert AliasKeys[..i + 1] == AliasKeys[..i] + [key];
      if key in pv.annotations {
        var form := AnnotationForm(pv.annotations[key]);
        if form.Some? {
          forms := forms + {form.value};
        }
      }
    }
    assert AliasKeys[..|AliasKeys|] == AliasKeys;
  }
}
