/**
 * The body of the generated definition, as a sequence of sections. The
 * injected fragments (`shape_eval`, `exec_paths`, ...) are opaque text; the
 * fixed parts are the bias null check, the per-dimension diagnostic dump and
 * the final "unsupported workload" throw, whose texts `SectionText` gives.
 */
module Body {
  import Decimal
  import opened Params

  /** The six text fragments the caller supplies for the body. */
  datatype Slots = Slots(
    shapeEval: string,
    inputAddrCalculator: string,
    outputAddrCalculator: string,
    extraShape: string,
    inputOutputChecks: string,
    execPaths: string)

  datatype Section =
    | ShapeEval(text: string)
    | InputAddrCalculator(text: string)
    | OutputAddrCalculator(text: string)
    | ExtraShape(text: string)
    | InputOutputChecks(text: string)
    | NullCheck(name: ParamName)
    | ExecPaths(text: string)
    | DimDump(tensor: Tensor, index: nat)
    | UnsupportedWorkload(functionName: string)

  /** Position of a section's kind in the template. Dump lines share one rank. */
  function Rank(s: Section): nat {
    match s
    case ShapeEval(_) => 0
    case InputAddrCalculator(_) => 1
    case OutputAddrCalculator(_) => 2
    case ExtraShape(_) => 3
    case InputOutputChecks(_) => 4
    case NullCheck(_) => 5
    case ExecPaths(_) => 6
    case DimDump(_, _) => 7
    case UnsupportedWorkload(_) => 8
  }

  /** One dump loop over `range(n)`: a line per dimension of tensor `t`, in
      index order. */
  function DumpRun(t: Tensor, n: nat): (r: seq<Section>)
    ensures |r| == n
    ensures forall k :: 0 <= k < n ==> r[k] == DimDump(t, k)
    decreases n
  {
    if n == 0 then [] else DumpRun(t, n - 1) + [DimDump(t, n - 1)]
  }

  /** The diagnostic dump: input, weight, then output dimensions. */
  function Dump(inputNdims: nat, weightNdims: nat): seq<Section> {
    DumpRun(A, inputNdims) + DumpRun(B, weightNdims) + DumpRun(C, inputNdims)
  }

  /** The seven sections before the dump, in template order. */
  function Preamble(slots: Slots): seq<Section> {
    [ ShapeEval(slots.shapeEval),
      InputAddrCalculator(slots.inputAddrCalculator),
      OutputAddrCalculator(slots.outputAddrCalculator),
      ExtraShape(slots.extraShape),
      InputOutputChecks(slots.inputOutputChecks),
      NullCheck(BiasPtr),
      ExecPaths(slots.execPaths) ]
  }

  /** The definition body: the preamble sections, the dump, then the throw. */
  function Body(slots: Slots, functionName: string, inputNdims: nat, weightNdims: nat): seq<Section> {
    Preamble(slots)
    + Dump(inputNdims, weightNdims)
    + [UnsupportedWorkload(functionName)]
  }

  /** The dumped parameter of a dump line. */
  function DumpedName(s: Section): (n: ParamName)
    requires s.DimDump?
    ensures n.Dim?
  {
    Dim(s.tensor, s.index)
  }

  function DumpLabel(t: Tensor): string {
    match t
    case A => "input_ndims"
    case B => "weight_ndims"
    case C => "output_ndims"
  }

  /** The text a dump line prints before the dimension's value. */
  function DumpCaption(t: Tensor, i: nat): string {
    DumpLabel(t) + Decimal.Format(i) + ": "
  }

  function UnsupportedPrefix(): string { "Unsupported workload for this " }
  function UnsupportedSuffix(): string { " specialization." }

  /** The message of the final throw. */
  function UnsupportedMessage(functionName: string): string {
    UnsupportedPrefix() + functionName + UnsupportedSuffix()
  }

  /** The message of the null check on parameter `n`. */
  function NullMessage(n: ParamName): string {
    NameText(n) + " is null!"
  }

  /** The text the template itself writes for a section: the message of the
      null check, a dump line's caption and the final throw's message; an
      injected fragment is its own text. */
  function SectionText(s: Section): string {
    match s
    case ShapeEval(text) => text
    case InputAddrCalculator(text) => text
    case OutputAddrCalculator(text) => text
    case ExtraShape(text) => text
    case InputOutputChecks(text) => text
    case NullCheck(n) => NullMessage(n)
    case ExecPaths(text) => text
    case DimDump(t, i) => DumpCaption(t, i)
    case UnsupportedWorkload(f) => UnsupportedMessage(f)
  }

  /** Recovers the function name from a final-throw message. */
  function MessageFunctionName(msg: string): string
    requires |msg| >= |UnsupportedPrefix()| + |UnsupportedSuffix()|
  {
    msg[|UnsupportedPrefix()|..|msg| - |UnsupportedSuffix()|]
  }

  /** The section placed at index `k` of a body. */
  function ExpectedSection(slots: Slots, functionName: string, inputNdims: nat, weightNdims: nat, k: nat): Section
    requires k < 8 + 2 * inputNdims + weightNdims
  {
    var n, w := inputNdims, weightNdims;
    if k == 0 then ShapeEval(slots.shapeEval)
    else if k == 1 then InputAddrCalculator(slots.inputAddrCalculator)
    else if k == 2 then OutputAddrCalculator(slots.outputAddrCalculator)
    else if k == 3 then ExtraShape(slots.extraShape)
    else if k == 4 then InputOutputChecks(slots.inputOutputChecks)
    else if k == 5 then NullCheck(BiasPtr)
    else if k == 6 then ExecPaths(slots.execPaths)
    else if k < 7 + 2 * n + w then ExpectedDump(n, w, k - 7)
    else UnsupportedWorkload(functionName)
  }

  /** The dump line at index `k` of the dump. */
  function ExpectedDump(inputNdims: nat, weightNdims: nat, k: nat): Section
    requires k < 2 * inputNdims + weightNdims
  {
    var n, w := inputNdims, weightNdims;
    if k < n then DimDump(A, k)
    else if k < n + w then DimDump(B, k - n)
    else DimDump(C, k - n - w)
  }

  // ---------------------------------------------------------------------------
  // Lemmas

  lemma DumpLayout(inputNdims: nat, weightNdims: nat)
    ensures |Dump(inputNdims, weightNdims)| == 2 * inputNdims + weightNdims
    ensures forall k :: 0 <= k < |Dump(inputNdims, weightNdims)| ==>
      Dump(inputNdims, weightNdims)[k] == ExpectedDump(inputNdims, weightNdims, k)
  {
    var n, w := inputNdims, weightNdims;
    var d := Dump(n, w);
    var ra, rb, rc := DumpRun(A, n), DumpRun(B, w), DumpRun(C, n);
    assert d == ra + rb + rc;
    forall k | 0 <= k < |d|
      ensures d[k] == ExpectedDump(n, w, k)
    {
      if k < n {
        assert d[k] == ra[k];
      } else if k < n + w {
        assert d[k] == rb[k - n];
      } else {
        assert d[k] == rc[k - n - w];
      }
    }
  }

  /** The body is exactly the template's section list. */
  lemma BodyLayout(slots: Slots, functionName: string, inputNdims: nat, weightNdims: nat)
    ensures |Body(slots, functionName, inputNdims, weightNdims)| == 8 + 2 * inputNdims + weightNdims
    ensures forall k :: 0 <= k < |Body(slots, functionName, inputNdims, weightNdims)| ==>
      Body(slots, functionName, inputNdims, weightNdims)[k] == ExpectedSection(slots, functionName, inputNdims, weightNdims, k)
  {
    var n, w := inputNdims, weightNdims;
    var b := Body(slots, functionName, n, w);
    var d := Dump(n, w);
    DumpLayout(n, w);
    forall k | 0 <= k < |b|
      ensures b[k] == ExpectedSection(slots, functionName, n, w, k)
    {
      if 7 <= k < 7 + |d| {
        assert b[k] == d[k - 7];
      }
    }
  }

  /** Sections come in template order: shape evaluation, input and output
      address calculation, extra shape, input/output checks, bias null check,
      dispatch paths, dimension dump, unsupported-workload throw; only dump
      lines share a kind, and the throw is last. */
  lemma BodyOrder(slots: Slots, functionName: string, inputNdims: nat, weightNdims: nat)
    ensures forall i, j :: 0 <= i < j < |Body(slots, functionName, inputNdims, weightNdims)| ==>
      || Rank(Body(slots, functionName, inputNdims, weightNdims)[i]) < Rank(Body(slots, functionName, inputNdims, weightNdims)[j])
      || (Body(slots, functionName, inputNdims, weightNdims)[i].DimDump? && Body(slots, functionName, inputNdims, weightNdims)[j].DimDump?)
    ensures Body(slots, functionName, inputNdims, weightNdims)[|Body(slots, functionName, inputNdims, weightNdims)| - 1]
         == UnsupportedWorkload(functionName)
  {
    BodyLayout(slots, functionName, inputNdims, weightNdims);
  }

  /** Every section kind but the dump occurs exactly once, at its template
      position; the dump lines fill exactly the 2 * input_ndims + weight_ndims
      positions between the dispatch paths and the final throw. */
  lemma BodySectionsOnce(slots: Slots, functionName: string, inputNdims: nat, weightNdims: nat, r: nat)
    requires r <= 8
    ensures forall k :: 0 <= k < |Body(slots, functionName, inputNdims, weightNdims)| ==>
      (Rank(Body(slots, functionName, inputNdims, weightNdims)[k]) == r <==>
        if r < 7 then k == r
        else if r == 7 then 7 <= k < 7 + 2 * inputNdims + weightNdims
        else k == 7 + 2 * inputNdims + weightNdims)
  {
    BodyLayout(slots, functionName, inputNdims, weightNdims);
  }

  /** The bias null check comes before every dispatch path and every dump line. */
  lemma BiasCheckBeforeDispatch(slots: Slots, functionName: string, inputNdims: nat, weightNdims: nat)
    ensures Body(slots, functionName, inputNdims, weightNdims)[5] == NullCheck(BiasPtr)
    ensures forall k :: 0 <= k < |Body(slots, functionName, inputNdims, weightNdims)| ==>
      (Body(slots, functionName, inputNdims, weightNdims)[k].ExecPaths? || Body(slots, functionName, inputNdims, weightNdims)[k].DimDump?
       || Body(slots, functionName, inputNdims, weightNdims)[k].UnsupportedWorkload?) ==> 5 < k
  {
    BodyLayout(slots, functionName, inputNdims, weightNdims);
  }

  /** The dump has one line per dimension parameter, in parameter order: line
      `k` prints the parameter at index `DimsOffset + k` of the definition. */
  lemma DumpMirrorsParams(supportSplitK: bool, inputNdims: nat, weightNdims: nat)
    ensures DimsOffset(supportSplitK) + |Dump(inputNdims, weightNdims)| + 1
         == |DefParams(supportSplitK, inputNdims, weightNdims)|
    ensures forall k :: 0 <= k < |Dump(inputNdims, weightNdims)| ==>
      && Dump(inputNdims, weightNdims)[k].DimDump?
      && DumpedName(Dump(inputNdims, weightNdims)[k])
         == DefParams(supportSplitK, inputNdims, weightNdims)[DimsOffset(supportSplitK) + k].name
  {
    var s, n, w := supportSplitK, inputNdims, weightNdims;
    DumpLayout(n, w);
    DefParamsLayout(s, n, w);
    var d := Dump(n, w);
    var p := DefParams(s, n, w);
    forall k | 0 <= k < |d|
      ensures d[k].DimDump? && DumpedName(d[k]) == p[DimsOffset(s) + k].name
    {
      assert p[DimsOffset(s) + k] == ExpectedParam(s, n, w, DimsOffset(s) + k);
    }
  }

  /** Distinct dimensions print distinct captions. */
  lemma DumpCaptionInjective(t: Tensor, i: nat, u: Tensor, j: nat)
    ensures DumpCaption(t, i) == DumpCaption(u, j) <==> t == u && i == j
  {
    if t == u && DumpCaption(t, i) == DumpCaption(u, j) {
      var l := DumpLabel(t);
      var x, y := Decimal.Format(i), Decimal.Format(j);
      assert x == DumpCaption(t, i)[|l|..|l| + |x|];
      assert |x| == |y|;
      assert y == DumpCaption(u, j)[|l|..|l| + |y|];
      Decimal.FormatInjective(i, j);
    } else if t != u {
      assert DumpCaption(t, i)[0] == DumpLabel(t)[0];
      assert DumpCaption(u, j)[0] == DumpLabel(u)[0];
    }
  }

  /** The final message names the function it was generated for. */
  lemma UnsupportedMessageNamesFunction(functionName: string)
    ensures |UnsupportedMessage(functionName)| >= |UnsupportedPrefix()| + |UnsupportedSuffix()|
    ensures MessageFunctionName(UnsupportedMessage(functionName)) == functionName
  {
    var m := UnsupportedMessage(functionName);
    assert m[|UnsupportedPrefix()|..|m| - |UnsupportedSuffix()|] == functionName;
  }

  /** The null check tests the definition's third parameter, the bias
      pointer, and says so in its message. */
  lemma NullCheckTestsBias(slots: Slots, functionName: string, supportSplitK: bool, inputNdims: nat, weightNdims: nat)
    ensures DefParams(supportSplitK, inputNdims, weightNdims)[2] == Param(HalfPtr, BiasPtr)
    ensures Body(slots, functionName, inputNdims, weightNdims)[5]
         == NullCheck(DefParams(supportSplitK, inputNdims, weightNdims)[2].name)
    ensures SectionText(Body(slots, functionName, inputNdims, weightNdims)[5]) == "bias_ptr is null!"
  {
    DefParamAt(supportSplitK, inputNdims, weightNdims, 2);
    BiasCheckBeforeDispatch(slots, functionName, inputNdims, weightNdims);
  }

  /** The texts of the diagnostics: the dump lines of one body print pairwise
      distinct captions, and the final throw's message names the function. */
  lemma DiagnosticTexts(slots: Slots, functionName: string, inputNdims: nat, weightNdims: nat)
    ensures |Body(slots, functionName, inputNdims, weightNdims)| == 8 + 2 * inputNdims + weightNdims
    ensures forall i, j :: 7 <= i < j < 7 + 2 * inputNdims + weightNdims ==>
      SectionText(Body(slots, functionName, inputNdims, weightNdims)[i])
      != SectionText(Body(slots, functionName, inputNdims, weightNdims)[j])
    ensures var m := SectionText(Body(slots, functionName, inputNdims, weightNdims)[7 + 2 * inputNdims + weightNdims]);
      |m| >= |UnsupportedPrefix()| + |UnsupportedSuffix()| && MessageFunctionName(m) == functionName
  {
    var n, w := inputNdims, weightNdims;
    var b := Body(slots, functionName, n, w);
    BodyLayout(slots, functionName, n, w);
    UnsupportedMessageNamesFunction(functionName);
    forall i, j | 7 <= i < j < 7 + 2 * n + w ensures SectionText(b[i]) != SectionText(b[j]) {
      var x, y := ExpectedDump(n, w, i - 7), ExpectedDump(n, w, j - 7);
      DumpCaptionInjective(x.tensor, x.index, y.tensor, y.index);
    }
  }
}
