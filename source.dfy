/**
 * The two artifacts generated for one GEMM+bias function: the declaration
 * (types only) and the definition (instance aliases, named parameters and
 * the body). This module renders both from their substitution values and
 * states the calling-convention contract that holds between them.
 */
module CommonBias {
  import opened Params
  import opened Body

  /** Substitution values of the definition template (the `extra_code` slot
      is not modelled). */
  datatype SrcArgs = SrcArgs(
    instances: string,
    functionName: string,
    supportSplitK: bool,
    inputNdims: nat,
    weightNdims: nat,
    slots: Slots)

  /** Substitution values of the declaration template. */
  datatype DeclArgs = DeclArgs(
    funcName: string,
    supportSplitK: bool,
    inputNdims: nat,
    weightNdims: nat)

  datatype Definition = Definition(
    instances: string,
    functionName: string,
    params: seq<Param>,
    body: seq<Section>)

  datatype Declaration = Declaration(funcName: string, paramTypes: seq<CType>)

  function RenderDefinition(a: SrcArgs): Definition {
    Definition(
      a.instances,
      a.functionName,
      DefParams(a.supportSplitK, a.inputNdims, a.weightNdims),
      Body.Body(a.slots, a.functionName, a.inputNdims, a.weightNdims))
  }

  function RenderDeclaration(a: DeclArgs): Declaration {
    Declaration(a.funcName, DeclParams(a.supportSplitK, a.inputNdims, a.weightNdims))
  }

  /** The declaration arguments that belong with a definition request. */
  function DeclArgsFor(a: SrcArgs): DeclArgs {
    DeclArgs(a.functionName, a.supportSplitK, a.inputNdims, a.weightNdims)
  }

  /** The calling-convention contract: same function name, and the
      definition's parameter types, names stripped, are the declaration's. */
  predicate ConventionHolds(def: Definition, decl: Declaration) {
    def.functionName == decl.funcName && Types(def.params) == decl.paramTypes
  }

  /** Rendering the two templates from the same values always meets the
      calling-convention contract, so its violation can never be observed. */
  lemma CallingConvention(a: SrcArgs)
    ensures ConventionHolds(RenderDefinition(a), RenderDeclaration(DeclArgsFor(a)))
    ensures |RenderDefinition(a).params| == |RenderDeclaration(DeclArgsFor(a)).paramTypes|
         == 6 + (if a.supportSplitK then 1 else 0) + 2 * a.inputNdims + a.weightNdims
  {
    StripNamesIsDecl(a.supportSplitK, a.inputNdims, a.weightNdims);
    ParamCountFormula(a.supportSplitK, a.inputNdims, a.weightNdims);
  }

  /** A declaration meets the contract with a definition exactly when it
      names the same function, has the same split-k setting and the same
      number of dimension pointers. */
  lemma ConventionExactly(a: SrcArgs, d: DeclArgs)
    ensures ConventionHolds(RenderDefinition(a), RenderDeclaration(d))
        <==> && d.funcName == a.functionName
             && d.supportSplitK == a.supportSplitK
             && 2 * d.inputNdims + d.weightNdims == 2 * a.inputNdims + a.weightNdims
  {
    StripNamesIsDecl(a.supportSplitK, a.inputNdims, a.weightNdims);
    DeclParamsDetermined(a.supportSplitK, a.inputNdims, a.weightNdims, d.supportSplitK, d.inputNdims, d.weightNdims);
  }

  /** The number of dimension pointers is all the types reveal: two requests
      with the same 2 * input_ndims + weight_ndims (ranks 1/2 and 0/4, say)
      get the same declaration, and either one's declaration meets the
      contract with the other's definition, although the two definitions
      differ whenever the input ranks do. */
  lemma ConventionRankBlind(a: SrcArgs, a': SrcArgs)
    requires a.functionName == a'.functionName && a.supportSplitK == a'.supportSplitK
    requires 2 * a.inputNdims + a.weightNdims == 2 * a'.inputNdims + a'.weightNdims
    ensures RenderDeclaration(DeclArgsFor(a)) == RenderDeclaration(DeclArgsFor(a'))
    ensures ConventionHolds(RenderDefinition(a), RenderDeclaration(DeclArgsFor(a')))
    ensures RenderDefinition(a).params == RenderDefinition(a').params <==> a.inputNdims == a'.inputNdims
  {
    DeclParamsDetermined(a.supportSplitK, a.inputNdims, a.weightNdims, a'.supportSplitK, a'.inputNdims, a'.weightNdims);
    DefParamsDetermined(a.supportSplitK, a.inputNdims, a.weightNdims, a'.supportSplitK, a'.inputNdims, a'.weightNdims);
    ConventionExactly(a, DeclArgsFor(a'));
  }

  /** The generated signature is well formed: its parameter identifiers are
      pairwise distinct, and each is lexically a C++ identifier. */
  lemma DefinitionIdentifiers(a: SrcArgs)
    ensures forall i, j :: 0 <= i < j < |RenderDefinition(a).params| ==>
      NameText(RenderDefinition(a).params[i].name) != NameText(RenderDefinition(a).params[j].name)
    ensures forall k :: 0 <= k < |RenderDefinition(a).params| ==> IsIdentifier(NameText(RenderDefinition(a).params[k].name))
  {
    var ps := RenderDefinition(a).params;
    NameTextsDistinct(a.supportSplitK, a.inputNdims, a.weightNdims);
    forall k | 0 <= k < |ps| ensures IsIdentifier(NameText(ps[k].name)) {
      NameTextIsIdentifier(ps[k].name);
    }
  }

  /** The generated body ends with the throw naming this very function, and
      its diagnostic dump prints every dimension parameter in parameter order. */
  lemma DefinitionDiagnostics(a: SrcArgs)
    ensures |RenderDefinition(a).body| == 8 + 2 * a.inputNdims + a.weightNdims
    ensures RenderDefinition(a).body[|RenderDefinition(a).body| - 1] == UnsupportedWorkload(RenderDefinition(a).functionName)
    ensures forall k :: 7 <= k < 7 + 2 * a.inputNdims + a.weightNdims ==>
      && RenderDefinition(a).body[k].DimDump?
      && DumpedName(RenderDefinition(a).body[k]) == RenderDefinition(a).params[DimsOffset(a.supportSplitK) + k - 7].name
  {
    var s, n, w := a.supportSplitK, a.inputNdims, a.weightNdims;
    var body := Body.Body(a.slots, a.functionName, n, w);
    var d := Dump(n, w);
    DumpMirrorsParams(s, n, w);
    assert body == Preamble(a.slots) + d + [UnsupportedWorkload(a.functionName)];
    forall k | 7 <= k < 7 + |d| ensures body[k] == d[k - 7] {
    }
  }
}
