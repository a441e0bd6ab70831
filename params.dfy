/**
 * The parameter lists of the generated GEMM+bias function.
 *
 * `DefParams` follows the definition template (typed and named parameters),
 * `DeclParams` follows the declaration template (types only). Each
 * `{% for idx in range(n) %}` loop is a recursive run builder and the
 * `{% if support_split_k %}` block an optional one-element sequence.
 * `ExpectedParam` is an independent, index-by-index description of the
 * calling convention; the lemmas tie both templates to it.
 */
module Params {
  import Decimal

  /** The C++ parameter types that occur in the two signatures. */
  datatype CType = HalfPtr | Uint8Ptr | IntT | Int64Ptr | CudaStream

  /** The three tensors whose extents are passed dimension by dimension. */
  datatype Tensor = A | B | C

  datatype ParamName =
    | APtr | BPtr | BiasPtr | CPtr | Workspace | SplitK
    | Dim(tensor: Tensor, index: nat)
    | Stream

  datatype Param = Param(ty: CType, name: ParamName)

  // ---------------------------------------------------------------------------
  // Text of types and names

  function TypeText(t: CType): string {
    match t
    case HalfPtr => "cutlass::half_t*"
    case Uint8Ptr => "uint8_t*"
    case IntT => "int"
    case Int64Ptr => "int64_t*"
    case CudaStream => "cudaStream_t"
  }

  function DimPrefix(t: Tensor): string {
    match t
    case A => "a_dim"
    case B => "b_dim"
    case C => "c_dim"
  }

  /** The identifier the definition template writes for a parameter. */
  function NameText(n: ParamName): string {
    match n
    case APtr => "a_ptr"
    case BPtr => "b_ptr"
    case BiasPtr => "bias_ptr"
    case CPtr => "c_ptr"
    case Workspace => "workspace"
    case SplitK => "split_k"
    case Dim(t, i) => DimPrefix(t) + Decimal.Format(i)
    case Stream => "stream"
  }

  predicate IsIdentChar(c: char) {
    'a' <= c <= 'z' || 'A' <= c <= 'Z' || c == '_' || Decimal.IsDigit(c)
  }

  /** Lexically a C++ identifier: non-empty, word characters only, no leading
      digit. Keywords are not excluded. */
  predicate IsIdentifier(s: string) {
    && |s| > 0
    && !Decimal.IsDigit(s[0])
    && forall k :: 0 <= k < |s| ==> IsIdentChar(s[k])
  }

  // ---------------------------------------------------------------------------
  // The definition's parameter list

  function Leading(): seq<Param> {
    [ Param(HalfPtr, APtr), Param(HalfPtr, BPtr), Param(HalfPtr, BiasPtr),
      Param(HalfPtr, CPtr), Param(Uint8Ptr, Workspace) ]
  }

  function SplitKParams(supportSplitK: bool): seq<Param> {
    if supportSplitK then [Param(IntT, SplitK)] else []
  }

  /** `{% for idx in range(n) %} int64_t* <t>_dim{{idx}}, {% endfor %}` */
  function DimRun(t: Tensor, n: nat): (r: seq<Param>)
    ensures |r| == n
    ensures forall k :: 0 <= k < n ==> r[k] == Param(Int64Ptr, Dim(t, k))
    decreases n
  {
    if n == 0 then [] else DimRun(t, n - 1) + [Param(Int64Ptr, Dim(t, n - 1))]
  }

  function DefParams(supportSplitK: bool, inputNdims: nat, weightNdims: nat): seq<Param> {
    Leading() + SplitKParams(supportSplitK)
    + DimRun(A, inputNdims) + DimRun(B, weightNdims) + DimRun(C, inputNdims)
    + [Param(CudaStream, Stream)]
  }

  /** The names of a parameter list, in order. */
  function Names(ps: seq<Param>): (r: seq<ParamName>)
    ensures |r| == |ps|
    ensures forall k :: 0 <= k < |ps| ==> r[k] == ps[k].name
    decreases |ps|
  {
    if ps == [] then [] else [ps[0].name] + Names(ps[1..])
  }

  /** Strips the names from a parameter list, keeping the types in order. */
  function Types(ps: seq<Param>): (r: seq<CType>)
    ensures |r| == |ps|
    ensures forall k :: 0 <= k < |ps| ==> r[k] == ps[k].ty
    decreases |ps|
  {
    if ps == [] then [] else [ps[0].ty] + Types(ps[1..])
  }

  // ---------------------------------------------------------------------------
  // The declaration's parameter list

  /** `{% for idx in range(n) %} int64_t*, {% endfor %}` */
  function Int64Run(n: nat): (r: seq<CType>)
    ensures |r| == n
    ensures forall k :: 0 <= k < n ==> r[k] == Int64Ptr
    decreases n
  {
    if n == 0 then [] else Int64Run(n - 1) + [Int64Ptr]
  }

  function DeclParams(supportSplitK: bool, inputNdims: nat, weightNdims: nat): seq<CType> {
    [HalfPtr, HalfPtr, HalfPtr, HalfPtr, Uint8Ptr]
    + (if supportSplitK then [IntT] else [])
    + Int64Run(inputNdims) + Int64Run(weightNdims) + Int64Run(inputNdims)
    + [CudaStream]
  }

  // ---------------------------------------------------------------------------
  // The calling convention, stated position by position

  /** Index of the first dimension pointer: right after workspace and split_k. */
  function DimsOffset(supportSplitK: bool): nat {
    if supportSplitK then 6 else 5
  }

  /** Number of dimension pointers passed for tensor `t`. The output tensor
      mirrors the input's rank. */
  function RunLength(t: Tensor, inputNdims: nat, weightNdims: nat): nat {
    match t
    case A => inputNdims
    case B => weightNdims
    case C => inputNdims
  }

  /** Index of `<t>_dim0` in the parameter list. */
  function RunStart(t: Tensor, supportSplitK: bool, inputNdims: nat, weightNdims: nat): nat {
    match t
    case A => DimsOffset(supportSplitK)
    case B => DimsOffset(supportSplitK) + inputNdims
    case C => DimsOffset(supportSplitK) + inputNdims + weightNdims
  }

  function ParamCount(supportSplitK: bool, inputNdims: nat, weightNdims: nat): nat {
    6 + (if supportSplitK then 1 else 0) + 2 * inputNdims + weightNdims
  }

  /** The parameter the convention puts at index `k`. */
  function ExpectedParam(supportSplitK: bool, inputNdims: nat, weightNdims: nat, k: nat): Param
    requires k < ParamCount(supportSplitK, inputNdims, weightNdims)
  {
    var o := DimsOffset(supportSplitK);
    if k == 0 then Param(HalfPtr, APtr)
    else if k == 1 then Param(HalfPtr, BPtr)
    else if k == 2 then Param(HalfPtr, BiasPtr)
    else if k == 3 then Param(HalfPtr, CPtr)
    else if k == 4 then Param(Uint8Ptr, Workspace)
    else if k < o then Param(IntT, SplitK)
    else if k < o + inputNdims then Param(Int64Ptr, Dim(A, k - o))
    else if k < o + inputNdims + weightNdims then Param(Int64Ptr, Dim(B, k - o - inputNdims))
    else if k < o + 2 * inputNdims + weightNdims then Param(Int64Ptr, Dim(C, k - o - inputNdims - weightNdims))
    else Param(CudaStream, Stream)
  }

  // ---------------------------------------------------------------------------
  // Lemmas

  /** The parameter at index `k` of the definition is the convention's. */
  lemma DefParamAt(supportSplitK: bool, inputNdims: nat, weightNdims: nat, k: nat)
    requires k < ParamCount(supportSplitK, inputNdims, weightNdims)
    ensures |DefParams(supportSplitK, inputNdims, weightNdims)| == ParamCount(supportSplitK, inputNdims, weightNdims)
    ensures DefParams(supportSplitK, inputNdims, weightNdims)[k] == ExpectedParam(supportSplitK, inputNdims, weightNdims, k)
  {
    var s, n, w := supportSplitK, inputNdims, weightNdims;
    var head := Leading() + SplitKParams(s);
    var ra, rb, rc := DimRun(A, n), DimRun(B, w), DimRun(C, n);
    var o := DimsOffset(s);
    assert |head| == o;
    var x1 := head + ra;
    var x2 := x1 + rb;
    var x3 := x2 + rc;
    var p := DefParams(s, n, w);
    assert p == x3 + [Param(CudaStream, Stream)];
    if k < o + 2 * n + w {
      assert p[k] == x3[k];
      if k < o + n + w {
        assert x3[k] == x2[k];
        if k < o + n {
          assert x2[k] == x1[k];
          if k < o {
            assert x1[k] == head[k];
          } else {
            assert x1[k] == ra[k - o];
          }
        } else {
          assert x2[k] == rb[k - o - n];
        }
      } else {
        assert x3[k] == rc[k - o - n - w];
      }
    }
  }

  /** The type at index `k` of the declaration is the convention's. */
  lemma DeclParamAt(supportSplitK: bool, inputNdims: nat, weightNdims: nat, k: nat)
    requires k < ParamCount(supportSplitK, inputNdims, weightNdims)
    ensures |DeclParams(supportSplitK, inputNdims, weightNdims)| == ParamCount(supportSplitK, inputNdims, weightNdims)
    ensures DeclParams(supportSplitK, inputNdims, weightNdims)[k] == ExpectedParam(supportSplitK, inputNdims, weightNdims, k).ty
  {
    var s, n, w := supportSplitK, inputNdims, weightNdims;
    var head: seq<CType> := [HalfPtr, HalfPtr, HalfPtr, HalfPtr, Uint8Ptr] + (if s then [IntT] else []);
    var ra, rb, rc := Int64Run(n), Int64Run(w), Int64Run(n);
    var o := DimsOffset(s);
    assert |head| == o;
    var x1 := head + ra;
    var x2 := x1 + rb;
    var x3 := x2 + rc;
    var d := DeclParams(s, n, w);
    assert d == x3 + [CudaStream];
    if k < o + 2 * n + w {
      assert d[k] == x3[k];
      if k < o + n + w {
        assert x3[k] == x2[k];
        if k < o + n {
          assert x2[k] == x1[k];
          if k < o {
            assert x1[k] == head[k];
          } else {
            assert x1[k] == ra[k - o];
          }
        } else {
          assert x2[k] == rb[k - o - n];
        }
      } else {
        assert x3[k] == rc[k - o - n - w];
      }
    }
  }

  /** The definition template produces exactly the convention's list. */
  lemma DefParamsLayout(supportSplitK: bool, inputNdims: nat, weightNdims: nat)
    ensures |DefParams(supportSplitK, inputNdims, weightNdims)| == ParamCount(supportSplitK, inputNdims, weightNdims)
    ensures forall k :: 0 <= k < |DefParams(supportSplitK, inputNdims, weightNdims)| ==>
      DefParams(supportSplitK, inputNdims, weightNdims)[k] == ExpectedParam(supportSplitK, inputNdims, weightNdims, k)
  {
    DefParamAt(supportSplitK, inputNdims, weightNdims, 0);
    forall k | 0 <= k < ParamCount(supportSplitK, inputNdims, weightNdims)
      ensures DefParams(supportSplitK, inputNdims, weightNdims)[k] == ExpectedParam(supportSplitK, inputNdims, weightNdims, k)
    {
      DefParamAt(supportSplitK, inputNdims, weightNdims, k);
    }
  }

  /** The declaration template produces the convention's types. */
  lemma DeclParamsLayout(supportSplitK: bool, inputNdims: nat, weightNdims: nat)
    ensures |DeclParams(supportSplitK, inputNdims, weightNdims)| == ParamCount(supportSplitK, inputNdims, weightNdims)
    ensures forall k :: 0 <= k < |DeclParams(supportSplitK, inputNdims, weightNdims)| ==>
      DeclParams(supportSplitK, inputNdims, weightNdims)[k] == ExpectedParam(supportSplitK, inputNdims, weightNdims, k).ty
  {
    DeclParamAt(supportSplitK, inputNdims, weightNdims, 0);
    forall k | 0 <= k < ParamCount(supportSplitK, inputNdims, weightNdims)
      ensures DeclParams(supportSplitK, inputNdims, weightNdims)[k] == ExpectedParam(supportSplitK, inputNdims, weightNdims, k).ty
    {
      DeclParamAt(supportSplitK, inputNdims, weightNdims, k);
    }
  }

  /** Parameter count: 6 + [1 for split_k] + 2 * input_ndims + weight_ndims,
      the same in declaration and definition. */
  lemma ParamCountFormula(supportSplitK: bool, inputNdims: nat, weightNdims: nat)
    ensures |DefParams(supportSplitK, inputNdims, weightNdims)|
         == 6 + (if supportSplitK then 1 else 0) + 2 * inputNdims + weightNdims
    ensures |DeclParams(supportSplitK, inputNdims, weightNdims)|
         == |DefParams(supportSplitK, inputNdims, weightNdims)|
  {
    DefParamAt(supportSplitK, inputNdims, weightNdims, 0);
    DeclParamAt(supportSplitK, inputNdims, weightNdims, 0);
  }

  /** Two-dimensional input and weight: 12 parameters, 13 with split_k. */
  lemma RankTwoCounts()
    ensures |DefParams(false, 2, 2)| == 12 && |DeclParams(false, 2, 2)| == 12
    ensures |DefParams(true, 2, 2)| == 13 && |DeclParams(true, 2, 2)| == 13
  {
    ParamCountFormula(false, 2, 2);
    ParamCountFormula(true, 2, 2);
  }

  /** Stripping the names from the definition's parameters gives exactly the
      declaration's type list. */
  lemma StripNamesIsDecl(supportSplitK: bool, inputNdims: nat, weightNdims: nat)
    ensures Types(DefParams(supportSplitK, inputNdims, weightNdims))
         == DeclParams(supportSplitK, inputNdims, weightNdims)
  {
    var s, n, w := supportSplitK, inputNdims, weightNdims;
    ParamCountFormula(s, n, w);
    var t := Types(DefParams(s, n, w));
    var d := DeclParams(s, n, w);
    assert |t| == |d|;
    forall k | 0 <= k < |t| ensures t[k] == d[k] {
      DefParamAt(s, n, w, k);
      DeclParamAt(s, n, w, k);
    }
  }

  /** split_k is a parameter iff split-k is supported, and then it is the int
      at index 5, right after workspace, in both templates. Without split-k
      the declaration has no `int` at all. */
  lemma SplitKPosition(supportSplitK: bool, inputNdims: nat, weightNdims: nat)
    ensures SplitK in Names(DefParams(supportSplitK, inputNdims, weightNdims)) <==> supportSplitK
    ensures IntT in DeclParams(supportSplitK, inputNdims, weightNdims) <==> supportSplitK
    ensures DefParams(supportSplitK, inputNdims, weightNdims)[4] == Param(Uint8Ptr, Workspace)
    ensures supportSplitK ==>
      && DefParams(supportSplitK, inputNdims, weightNdims)[5] == Param(IntT, SplitK)
      && DeclParams(supportSplitK, inputNdims, weightNdims)[5] == IntT
  {
    var s, n, w := supportSplitK, inputNdims, weightNdims;
    DefParamAt(s, n, w, 4);
    var p := DefParams(s, n, w);
    var d := DeclParams(s, n, w);
    if s {
      DefParamAt(s, n, w, 5);
      DeclParamAt(s, n, w, 5);
      assert Names(p)[5] == SplitK;
    } else {
      forall k | 0 <= k < |p| ensures Names(p)[k] != SplitK && d[k] != IntT {
        DefParamAt(s, n, w, k);
        DeclParamAt(s, n, w, k);
      }
    }
  }

  /** A dimension beyond its tensor's run length is at no index. */
  lemma DimAbsentAt(supportSplitK: bool, inputNdims: nat, weightNdims: nat, t: Tensor, i: nat, k: nat)
    requires i >= RunLength(t, inputNdims, weightNdims)
    requires k < ParamCount(supportSplitK, inputNdims, weightNdims)
    ensures |DefParams(supportSplitK, inputNdims, weightNdims)| == ParamCount(supportSplitK, inputNdims, weightNdims)
    ensures DefParams(supportSplitK, inputNdims, weightNdims)[k].name != Dim(t, i)
  {
    DefParamAt(supportSplitK, inputNdims, weightNdims, k);
    var e := ExpectedParam(supportSplitK, inputNdims, weightNdims, k);
    if e.name.Dim? && e.name.tensor == t {
      assert e.name.index < RunLength(t, inputNdims, weightNdims);
    }
  }

  /** Dimension i of tensor t sits at its run's start plus i. */
  lemma DimRunPosition(supportSplitK: bool, inputNdims: nat, weightNdims: nat, t: Tensor, i: nat)
    requires i < RunLength(t, inputNdims, weightNdims)
    ensures RunStart(t, supportSplitK, inputNdims, weightNdims) + i < |DefParams(supportSplitK, inputNdims, weightNdims)|
    ensures DefParams(supportSplitK, inputNdims, weightNdims)[RunStart(t, supportSplitK, inputNdims, weightNdims) + i]
        == Param(Int64Ptr, Dim(t, i))
  {
    DefParamAt(supportSplitK, inputNdims, weightNdims, RunStart(t, supportSplitK, inputNdims, weightNdims) + i);
  }

  /** Each dimension run holds exactly `<t>_dim0 .. <t>_dim{n-1}`, with
      n = input_ndims for the input and the output and weight_ndims for the
      weight. */
  lemma DimRunsExact(supportSplitK: bool, inputNdims: nat, weightNdims: nat, t: Tensor, i: nat)
    ensures Dim(t, i) in Names(DefParams(supportSplitK, inputNdims, weightNdims))
        <==> i < RunLength(t, inputNdims, weightNdims)
  {
    var s, n, w := supportSplitK, inputNdims, weightNdims;
    var p := DefParams(s, n, w);
    var names := Names(p);
    if i < RunLength(t, n, w) {
      DimRunPosition(s, n, w, t, i);
      assert names[RunStart(t, s, n, w) + i] == Dim(t, i);
    } else {
      ParamCountFormula(s, n, w);
      forall k | 0 <= k < |p| ensures names[k] != Dim(t, i) {
        DimAbsentAt(s, n, w, t, i, k);
      }
    }
  }

  /** The output-dimension run has input_ndims entries, independent of weight_ndims. */
  lemma OutputRunFollowsInputRank(supportSplitK: bool, inputNdims: nat, weightNdims: nat)
    ensures forall i: nat :: Dim(C, i) in Names(DefParams(supportSplitK, inputNdims, weightNdims)) <==> i < inputNdims
  {
    forall i: nat ensures Dim(C, i) in Names(DefParams(supportSplitK, inputNdims, weightNdims)) <==> i < inputNdims {
      DimRunsExact(supportSplitK, inputNdims, weightNdims, C, i);
    }
  }

  /** Two rank pairs with the same 2 * input_ndims + weight_ndims give the
      same declaration types. */
  lemma DeclParamsRankBlind(supportSplitK: bool, inputNdims: nat, weightNdims: nat, inputNdims': nat, weightNdims': nat)
    requires 2 * inputNdims + weightNdims == 2 * inputNdims' + weightNdims'
    ensures DeclParams(supportSplitK, inputNdims, weightNdims) == DeclParams(supportSplitK, inputNdims', weightNdims')
  {
    var s, n, w, n', w' := supportSplitK, inputNdims, weightNdims, inputNdims', weightNdims';
    var d, d' := DeclParams(s, n, w), DeclParams(s, n', w');
    DeclParamAt(s, n, w, 0);
    DeclParamAt(s, n', w', 0);
    forall k | 0 <= k < |d| ensures d[k] == d'[k] {
      DeclParamAt(s, n, w, k);
      DeclParamAt(s, n', w', k);
    }
  }

  /** The declaration's types fix the split-k setting and the number of
      dimension pointers, and nothing else. */
  lemma DeclParamsDetermined(supportSplitK: bool, inputNdims: nat, weightNdims: nat,
                             supportSplitK': bool, inputNdims': nat, weightNdims': nat)
    ensures DeclParams(supportSplitK, inputNdims, weightNdims) == DeclParams(supportSplitK', inputNdims', weightNdims')
        <==> supportSplitK == supportSplitK' && 2 * inputNdims + weightNdims == 2 * inputNdims' + weightNdims'
  {
    var s, n, w, s', n', w' := supportSplitK, inputNdims, weightNdims, supportSplitK', inputNdims', weightNdims';
    if s == s' && 2 * n + w == 2 * n' + w' {
      DeclParamsRankBlind(s, n, w, n', w');
    } else {
      ParamCountFormula(s, n, w);
      ParamCountFormula(s', n', w');
      SplitKPosition(s, n, w);
      SplitKPosition(s', n', w');
    }
  }

  /** The definition's parameters, unlike the declaration's types, fix both
      ranks and the split-k setting. */
  lemma DefParamsDetermined(supportSplitK: bool, inputNdims: nat, weightNdims: nat,
                            supportSplitK': bool, inputNdims': nat, weightNdims': nat)
    ensures DefParams(supportSplitK, inputNdims, weightNdims) == DefParams(supportSplitK', inputNdims', weightNdims')
        <==> supportSplitK == supportSplitK' && inputNdims == inputNdims' && weightNdims == weightNdims'
  {
    var s, n, w, s', n', w' := supportSplitK, inputNdims, weightNdims, supportSplitK', inputNdims', weightNdims';
    SplitKPosition(s, n, w);
    SplitKPosition(s', n', w');
    DimRunsExact(s, n, w, A, n);
    DimRunsExact(s', n', w', A, n);
    DimRunsExact(s, n, w, A, n');
    DimRunsExact(s', n', w', A, n');
    DimRunsExact(s, n, w, B, w);
    DimRunsExact(s', n', w', B, w);
    DimRunsExact(s, n, w, B, w');
    DimRunsExact(s', n', w', B, w');
  }

  /** Where the convention puts a parameter with this name. */
  function Position(supportSplitK: bool, inputNdims: nat, weightNdims: nat, name: ParamName): nat {
    var o := DimsOffset(supportSplitK);
    match name
    case APtr => 0
    case BPtr => 1
    case BiasPtr => 2
    case CPtr => 3
    case Workspace => 4
    case SplitK => 5
    case Dim(t, i) => RunStart(t, supportSplitK, inputNdims, weightNdims) + i
    case Stream => o + 2 * inputNdims + weightNdims
  }

  /** A parameter's name determines its index: the name at index `k` is
      placed at `k`. */
  lemma PositionOfExpected(supportSplitK: bool, inputNdims: nat, weightNdims: nat, k: nat)
    requires k < ParamCount(supportSplitK, inputNdims, weightNdims)
    ensures Position(supportSplitK, inputNdims, weightNdims, ExpectedParam(supportSplitK, inputNdims, weightNdims, k).name) == k
  {
  }

  /** No two parameters of the definition share a name. */
  lemma NamesDistinct(supportSplitK: bool, inputNdims: nat, weightNdims: nat)
    ensures forall i, j :: 0 <= i < j < |DefParams(supportSplitK, inputNdims, weightNdims)| ==>
      DefParams(supportSplitK, inputNdims, weightNdims)[i].name != DefParams(supportSplitK, inputNdims, weightNdims)[j].name
  {
    var s, n, w := supportSplitK, inputNdims, weightNdims;
    var p := DefParams(s, n, w);
    ParamCountFormula(s, n, w);
    forall i, j | 0 <= i < j < |p| ensures p[i].name != p[j].name {
      DefParamAt(s, n, w, i);
      DefParamAt(s, n, w, j);
      PositionOfExpected(s, n, w, i);
      PositionOfExpected(s, n, w, j);
    }
  }

  lemma TypeTextInjective(t: CType, u: CType)
    ensures TypeText(t) == TypeText(u) <==> t == u
  {
  }

  /** The spellings of a type list, one per type. */
  function TypeTexts(ts: seq<CType>): (r: seq<string>)
    ensures |r| == |ts|
    ensures forall k :: 0 <= k < |ts| ==> r[k] == TypeText(ts[k])
  {
    if ts == [] then [] else [TypeText(ts[0])] + TypeTexts(ts[1..])
  }

  /** Two type lists are spelt the same iff they are the same list, so
      comparing the types as tokens is comparing them as text. */
  lemma TypeTextsInjective(xs: seq<CType>, ys: seq<CType>)
    ensures TypeTexts(xs) == TypeTexts(ys) <==> xs == ys
  {
    if TypeTexts(xs) == TypeTexts(ys) {
      forall k | 0 <= k < |xs| ensures xs[k] == ys[k] {
        TypeTextInjective(xs[k], ys[k]);
      }
    }
  }

  /** As text, the declaration writes the definition's types with the names
      stripped, and two declarations write the same types iff they agree on
      split-k and on the number of dimension pointers. */
  lemma DeclTextsDetermined(supportSplitK: bool, inputNdims: nat, weightNdims: nat,
                            supportSplitK': bool, inputNdims': nat, weightNdims': nat)
    ensures TypeTexts(Types(DefParams(supportSplitK, inputNdims, weightNdims)))
         == TypeTexts(DeclParams(supportSplitK, inputNdims, weightNdims))
    ensures TypeTexts(DeclParams(supportSplitK, inputNdims, weightNdims))
         == TypeTexts(DeclParams(supportSplitK', inputNdims', weightNdims'))
        <==> supportSplitK == supportSplitK' && 2 * inputNdims + weightNdims == 2 * inputNdims' + weightNdims'
  {
    StripNamesIsDecl(supportSplitK, inputNdims, weightNdims);
    TypeTextsInjective(DeclParams(supportSplitK, inputNdims, weightNdims), DeclParams(supportSplitK', inputNdims', weightNdims'));
    DeclParamsDetermined(supportSplitK, inputNdims, weightNdims, supportSplitK', inputNdims', weightNdims');
  }

  lemma {:induction false} PrefixCancel(p: string, x: string, y: string)
    requires p + x == p + y
    ensures x == y
  {
    assert x == (p + x)[|p|..];
    assert y == (p + y)[|p|..];
  }

  /** Different parameters are written with different identifiers. */
  lemma NameTextInjective(m: ParamName, n: ParamName)
    ensures NameText(m) == NameText(n) <==> m == n
  {
    if m.Dim? && n.Dim? {
      if m.tensor == n.tensor && NameText(m) == NameText(n) {
        PrefixCancel(DimPrefix(m.tensor), Decimal.Format(m.index), Decimal.Format(n.index));
        Decimal.FormatInjective(m.index, n.index);
      } else if m.tensor != n.tensor {
        assert NameText(m)[0] == DimPrefix(m.tensor)[0];
        assert NameText(n)[0] == DimPrefix(n.tensor)[0];
      }
    } else if m.Dim? {
      assert NameText(m)[..5] == DimPrefix(m.tensor);
    } else if n.Dim? {
      assert NameText(n)[..5] == DimPrefix(n.tensor);
    }
  }

  /** Every parameter name is lexically a C++ identifier. */
  lemma NameTextIsIdentifier(n: ParamName)
    ensures IsIdentifier(NameText(n))
  {
    if n.Dim? {
      var s := NameText(n);
      var f := Decimal.Format(n.index);
      assert s == DimPrefix(n.tensor) + f;
      forall k | 0 <= k < |s| ensures IsIdentChar(s[k]) {
        if k >= 5 {
          assert s[k] == f[k - 5];
        }
      }
    }
  }

  /** The definition's parameter identifiers are pairwise distinct, so the
      generated C++ signature never declares a name twice. */
  lemma NameTextsDistinct(supportSplitK: bool, inputNdims: nat, weightNdims: nat)
    ensures forall i, j :: 0 <= i < j < |DefParams(supportSplitK, inputNdims, weightNdims)| ==>
      NameText(DefParams(supportSplitK, inputNdims, weightNdims)[i].name)
        != NameText(DefParams(supportSplitK, inputNdims, weightNdims)[j].name)
  {
    var p := DefParams(supportSplitK, inputNdims, weightNdims);
    NamesDistinct(supportSplitK, inputNdims, weightNdims);
    forall i, j | 0 <= i < j < |p| ensures NameText(p[i].name) != NameText(p[j].name) {
      NameTextInjective(p[i].name, p[j].name);
    }
  }
}
