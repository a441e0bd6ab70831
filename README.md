# GEMM + bias code generator, modelled in Dafny

`python/aitemplate/backend/cuda/gemm_universal/common_bias.py` holds three
Jinja2 templates from which AITemplate generates the C++ for a "GEMM + bias"
function:

- the instance template, which emits a kernel configuration block and the
  line `using <name> = <config_name>;`;
- the definition template, which emits the instance aliases, then a function
  whose parameter list depends on `support_split_k`, `input_ndims` and
  `weight_ndims`, and whose body places the injected fragments, a bias
  null check, the dispatch paths, a per-dimension diagnostic dump and a
  final "Unsupported workload" throw;
- the declaration template, which emits the same parameter list with the
  names left out.

The model works at the level of tokens and structure, not bytes.

- `decimal.dfy` (module `Decimal`): how a loop index `{{idx}}` is printed
  (decimal, no leading zero), with a parser that proves the printing
  injective.
- `params.dfy` (module `Params`): the definition's typed, named parameters
  (`DefParams`) and the declaration's types (`DeclParams`). Each
  `{% for idx in range(n) %}` loop is a recursive run builder, and
  `ExpectedParam` is an independent description of the calling convention,
  index by index.
- `body.dfy` (module `Body`): the definition body as a sequence of
  sections. The injected fragments are opaque strings.
- `instance.dfy` (module `Instance`): the instance template, with a parser for
  the alias line.
- `source.dfy` (module `CommonBias`): both artifacts rendered from their
  substitution values, and the calling-convention contract between them.

Where the templates are looser than a reader might expect, the model
follows the code:

- The two parameter lists are the same in order, type and presence of
  `split_k`, but not byte for byte. The definition template renders with
  `trim_blocks`/`lstrip_blocks` and the declaration template does not, and
  the `int` line is indented differently. The model compares token
  sequences.
- Ranks are never checked. A negative rank would just make `range` empty.
  The model takes ranks as naturals.
- The declaration uses the key `func_name` and the definition uses
  `function_name`. Because of this, `DeclArgs` and `SrcArgs` carry the name
  separately, and `ConventionHolds` requires the two names to be equal.
- A declaration's types show only how many dimension pointers there are. For
  example, ranks 1/2 and 0/4 give the same declaration types
  (`Params.DeclParamsDetermined`, `CommonBias.ConventionRankBlind`).

## Model

| member | source | states |
|---|---|---|
| `Decimal.Format` | python/aitemplate/backend/cuda/gemm_universal/common_bias.py:70-78 | the printed index `{{idx}}` is a non-empty string of digits, with a leading `0` only for zero and one digit exactly below ten |
| `Decimal.ParseFormat` | python/aitemplate/backend/cuda/gemm_universal/common_bias.py:70-78 | reading the printed index back gives the index (round trip) |
| `Decimal.FormatInjective` | python/aitemplate/backend/cuda/gemm_universal/common_bias.py:70-78 | two indices print the same text iff they are equal |
| `Params.NameText` | python/aitemplate/backend/cuda/gemm_universal/common_bias.py:62-79 | the identifier written for each parameter; its contract is stated by `NameTextInjective` (different parameters are spelt differently) and `NameTextIsIdentifier` (every spelling is lexically a C++ identifier) |
| `Params.DimRun` | python/aitemplate/backend/cuda/gemm_universal/common_bias.py:70-78 | a `range(n)` loop of the definition yields n parameters, the k-th being `int64_t* <t>_dim<k>` |
| `Params.Int64Run` | python/aitemplate/backend/cuda/gemm_universal/common_bias.py:122-130 | a `range(n)` loop of the declaration yields exactly n `int64_t*` types |
| `Params.Names` | python/aitemplate/backend/cuda/gemm_universal/common_bias.py:61-79 | the names of a parameter list, one per parameter and in order |
| `Params.Types` | python/aitemplate/backend/cuda/gemm_universal/common_bias.py:61-79 | stripping names keeps one type per parameter, in order |
| `Params.DefParams` | python/aitemplate/backend/cuda/gemm_universal/common_bias.py:61-79 | the definition's parameter list; its contract is stated by `DefParamAt`/`DefParamsLayout` (index by index equal to the convention `ExpectedParam`), `NamesDistinct`, `DimRunsExact` and `SplitKPosition` |
| `Params.DeclParams` | python/aitemplate/backend/cuda/gemm_universal/common_bias.py:113-131 | the declaration's type list; its contract is stated by `DeclParamAt`/`DeclParamsLayout` (index by index the convention's types), `StripNamesIsDecl` and `DeclParamsDetermined` |
| `Params.DefParamAt` | python/aitemplate/backend/cuda/gemm_universal/common_bias.py:61-79 | the definition's parameter at any index k is the convention's parameter for k, and the list has the convention's length |
| `Params.DeclParamAt` | python/aitemplate/backend/cuda/gemm_universal/common_bias.py:113-131 | the declaration's type at any index k is the type of the convention's parameter for k, and the list has the convention's length |
| `Params.DefParamsLayout` | python/aitemplate/backend/cuda/gemm_universal/common_bias.py:61-79 | the definition's parameters are a_ptr, b_ptr, bias_ptr, c_ptr, workspace, [split_k], a_dim0..a_dim{in-1}, b_dim0..b_dim{w-1}, c_dim0..c_dim{in-1}, stream, with their types, index by index |
| `Params.DeclParamsLayout` | python/aitemplate/backend/cuda/gemm_universal/common_bias.py:113-131 | the declaration's types are half_t* x4, uint8_t*, [int], int64_t* x(2·in+w), cudaStream_t, index by index |
| `Params.ParamCountFormula` | python/aitemplate/backend/cuda/gemm_universal/common_bias.py:61-79 | the definition has 6 + [1 with split-k] + 2·input_ndims + weight_ndims parameters, and the declaration (lines 113-131) has just as many |
| `Params.RankTwoCounts` | python/aitemplate/backend/cuda/gemm_universal/common_bias.py:113-131 | input and weight rank 2 give 12 parameters in both templates, 13 with split-k |
| `Params.StripNamesIsDecl` | python/aitemplate/backend/cuda/gemm_universal/common_bias.py:113-131 | the definition's parameters (lines 61-79) with names stripped are exactly the declaration's type list |
| `Params.SplitKPosition` | python/aitemplate/backend/cuda/gemm_universal/common_bias.py:66-69 | split_k is a parameter iff split-k is supported, the declaration (lines 118-121) has an `int` iff split-k is supported, and when present both have it at index 5, right after workspace |
| `Params.DimRunsExact` | python/aitemplate/backend/cuda/gemm_universal/common_bias.py:70-78 | `<t>_dim<i>` is a parameter iff i is below that tensor's run length (input_ndims for a and c, weight_ndims for b) |
| `Params.DimRunPosition` | python/aitemplate/backend/cuda/gemm_universal/common_bias.py:70-78 | `<t>_dim<i>` sits at its run's start plus i, so each run is 0..n-1 consecutively and in increasing order |
| `Params.DimAbsentAt` | python/aitemplate/backend/cuda/gemm_universal/common_bias.py:70-78 | no index holds a dimension at or beyond its tensor's run length |
| `Params.OutputRunFollowsInputRank` | python/aitemplate/backend/cuda/gemm_universal/common_bias.py:76-78 | the output run `c_dim<i>` has exactly input_ndims entries, whatever weight_ndims is |
| `Params.DeclParamsRankBlind` | python/aitemplate/backend/cuda/gemm_universal/common_bias.py:113-131 | two rank pairs with the same 2·input_ndims + weight_ndims give identical declaration types |
| `Params.DeclParamsDetermined` | python/aitemplate/backend/cuda/gemm_universal/common_bias.py:113-131 | two declarations have equal types iff they have the same split-k setting and the same 2·input_ndims + weight_ndims |
| `Params.DefParamsDetermined` | python/aitemplate/backend/cuda/gemm_universal/common_bias.py:61-79 | two definitions have equal parameter lists iff split-k setting, input_ndims and weight_ndims are all equal |
| `Params.PositionOfExpected` | python/aitemplate/backend/cuda/gemm_universal/common_bias.py:61-79 | the convention's parameter name at index k is placed at k, so a name determines its index |
| `Params.NamesDistinct` | python/aitemplate/backend/cuda/gemm_universal/common_bias.py:61-79 | no two parameters of the definition share a name |
| `Params.TypeText` | python/aitemplate/backend/cuda/gemm_universal/common_bias.py:62-79 | the C++ spelling of each of the five parameter types the two signatures write (also lines 114-131); its contract is stated by `TypeTextInjective` |
| `Params.TypeTexts` | python/aitemplate/backend/cuda/gemm_universal/common_bias.py:113-131 | the declaration's type list written out, one spelling per type; its contract is stated by `TypeTextsInjective` and `DeclTextsDetermined` |
| `Params.TypeTextInjective` | python/aitemplate/backend/cuda/gemm_universal/common_bias.py:62-79 | the five C++ type spellings are pairwise different |
| `Params.TypeTextsInjective` | python/aitemplate/backend/cuda/gemm_universal/common_bias.py:114-131 | two type lists are written with the same spellings, one per parameter, iff they are the same list |
| `Params.DeclTextsDetermined` | python/aitemplate/backend/cuda/gemm_universal/common_bias.py:113-131 | the declaration's written types, index by index, are the definition's written types with names stripped, and two declarations write the same types iff split-k setting and 2·input_ndims + weight_ndims agree |
| `Params.NameTextInjective` | python/aitemplate/backend/cuda/gemm_universal/common_bias.py:62-79 | two parameters are spelt the same iff they are the same parameter (a_dim1 vs a_dim10, bias_ptr vs b_dim..., and so on) |
| `Params.NameTextIsIdentifier` | python/aitemplate/backend/cuda/gemm_universal/common_bias.py:62-79 | every parameter spelling is lexically a C++ identifier: non-empty, letters, digits and `_` only, no leading digit (keywords are not excluded, and none of these spellings is one) |
| `Params.NameTextsDistinct` | python/aitemplate/backend/cuda/gemm_universal/common_bias.py:61-79 | the identifiers written in the definition's signature are pairwise distinct |
| `Body.Body` | python/aitemplate/backend/cuda/gemm_universal/common_bias.py:81-103 | the definition body; its contract is stated by `BodyLayout` (index by index equal to `ExpectedSection`), `BodyOrder`, `BodySectionsOnce`, `BiasCheckBeforeDispatch`, `NullCheckTestsBias` and `DiagnosticTexts` |
| `Body.Dump` | python/aitemplate/backend/cuda/gemm_universal/common_bias.py:92-100 | the three dump loops; its contract is stated by `DumpLayout` (index by index equal to `ExpectedDump`) and `DumpMirrorsParams` |
| `Body.DumpCaption` | python/aitemplate/backend/cuda/gemm_universal/common_bias.py:93-99 | the caption a dump line prints; its contract is stated by `DumpCaptionInjective` and, within one body, `DiagnosticTexts` |
| `Body.UnsupportedMessage` | python/aitemplate/backend/cuda/gemm_universal/common_bias.py:102 | the final throw's message; its contract is stated by `UnsupportedMessageNamesFunction` and `DiagnosticTexts` |
| `Body.NullMessage` | python/aitemplate/backend/cuda/gemm_universal/common_bias.py:88 | the message of the null check on a parameter, `<name> is null!`; its contract is stated by `NullCheckTestsBias` (the body's check gives `bias_ptr is null!`) |
| `Body.SectionText` | python/aitemplate/backend/cuda/gemm_universal/common_bias.py:87-103 | the text the template writes for each section: the null check's message (line 88), a dump line's caption (lines 93/96/99), the final message (line 102), an injected fragment verbatim; its contract is stated by `NullCheckTestsBias` and `DiagnosticTexts` |
| `Body.DumpRun` | python/aitemplate/backend/cuda/gemm_universal/common_bias.py:92-100 | a dump loop over `range(n)` yields n lines, the k-th printing dimension k of its tensor |
| `Body.DumpLayout` | python/aitemplate/backend/cuda/gemm_universal/common_bias.py:92-100 | the dump has 2·input_ndims + weight_ndims lines: input dims, then weight dims, then output dims, each in index order |
| `Body.BodyLayout` | python/aitemplate/backend/cuda/gemm_universal/common_bias.py:81-103 | the body is shape_eval, input_addr_calculator, output_addr_calculator, extra_shape, input_output_checks, bias null check, exec_paths, the dump, the unsupported-workload throw, index by index |
| `Body.BodyOrder` | python/aitemplate/backend/cuda/gemm_universal/common_bias.py:81-103 | section kinds strictly increase along the body except between dump lines, and the unsupported-workload throw is the last section |
| `Body.BodySectionsOnce` | python/aitemplate/backend/cuda/gemm_universal/common_bias.py:81-103 | each non-dump section kind occurs exactly once, at its template position, and the dump lines fill exactly the positions between exec_paths and the final throw |
| `Body.BiasCheckBeforeDispatch` | python/aitemplate/backend/cuda/gemm_universal/common_bias.py:87-91 | the bias null check is at index 5, before every dispatch path, dump line and the final throw |
| `Body.DumpMirrorsParams` | python/aitemplate/backend/cuda/gemm_universal/common_bias.py:92-100 | dump line k prints the parameter at index DimsOffset + k of the definition (lines 70-78), so the dump covers every dimension parameter once, in parameter order |
| `Body.NullCheckTestsBias` | python/aitemplate/backend/cuda/gemm_universal/common_bias.py:87-89 | the null check at body index 5 tests the definition's parameter at index 2, which is `cutlass::half_t* bias_ptr`, and its message is `bias_ptr is null!` |
| `Body.DiagnosticTexts` | python/aitemplate/backend/cuda/gemm_universal/common_bias.py:91-103 | within one body the dump lines print pairwise distinct captions, and the final message gives back the function name |
| `Body.DumpCaptionInjective` | python/aitemplate/backend/cuda/gemm_universal/common_bias.py:93-99 | the captions `input_ndims<i>: `, `weight_ndims<i>: `, `output_ndims<i>: ` are different for different dimensions |
| `Body.UnsupportedMessageNamesFunction` | python/aitemplate/backend/cuda/gemm_universal/common_bias.py:101-103 | the final message, "Unsupported workload for this <function_name> specialization.", gives back the function name |
| `Instance.UsingLine` | python/aitemplate/backend/cuda/gemm_universal/common_bias.py:26 | the alias line `using <name> = <config_name>;`; its contract is stated by `ParseUsingLine`, which reads name and type back |
| `Instance.Alias` | python/aitemplate/backend/cuda/gemm_universal/common_bias.py:23-28 | the two rendered blocks of one instance; its contract is stated by `AliasRoundTrip` and `AliasInjective` |
| `Instance.FirstSpace` | python/aitemplate/backend/cuda/gemm_universal/common_bias.py:26 | the first space of a line is found, or the line's length if there is none |
| `Instance.ParseUsingLine` | python/aitemplate/backend/cuda/gemm_universal/common_bias.py:26 | parsing `using <name> = <config_name>;` gives back the name and the configured type, for any name without a space |
| `Instance.AliasRoundTrip` | python/aitemplate/backend/cuda/gemm_universal/common_bias.py:23-28 | for names without a space (every C++ identifier qualifies), the instance block is the configuration text verbatim followed by an alias line from which name and type are recovered |
| `Instance.AliasInjective` | python/aitemplate/backend/cuda/gemm_universal/common_bias.py:23-28 | for names without a space (every C++ identifier qualifies), as a pair of blocks (configuration text, alias line), two instances render equal iff their configuration, name and configured type are; the claim is about the block form, since one flat text is not injective (a configuration may itself end in an alias line) |
| `CommonBias.RenderDefinition` | python/aitemplate/backend/cuda/gemm_universal/common_bias.py:59-104 | the rendered definition: aliases, function name, parameters, body; its contract is stated by `CallingConvention`, `ConventionExactly`, `DefinitionIdentifiers` and `DefinitionDiagnostics` |
| `CommonBias.RenderDeclaration` | python/aitemplate/backend/cuda/gemm_universal/common_bias.py:113-132 | the rendered declaration: function name and parameter types; its contract is stated by `CallingConvention` and `ConventionExactly` |
| `CommonBias.CallingConvention` | python/aitemplate/backend/cuda/gemm_universal/common_bias.py:61-131 | rendering both templates from the same values gives the same function name, a declaration type list equal to the definition's types with names stripped, and the stated parameter count |
| `CommonBias.ConventionExactly` | python/aitemplate/backend/cuda/gemm_universal/common_bias.py:61-131 | a declaration meets the contract with a definition iff it names the same function, has the same split-k setting and the same number (2·in+w) of dimension pointers |
| `CommonBias.ConventionRankBlind` | python/aitemplate/backend/cuda/gemm_universal/common_bias.py:113-131 | two requests with the same name, split-k setting and 2·in+w get the same declaration, which meets the contract with either definition, and the two definitions' parameters are equal iff the input ranks are |
| `CommonBias.DefinitionIdentifiers` | python/aitemplate/backend/cuda/gemm_universal/common_bias.py:61-79 | the parameter identifiers of a rendered definition are pairwise distinct and all lexically C++ identifiers |
| `CommonBias.DefinitionDiagnostics` | python/aitemplate/backend/cuda/gemm_universal/common_bias.py:91-104 | a rendered body has 8 + 2·in + w sections, ends with the throw naming its own function, and its dump line at index 7 + k prints the parameter at index DimsOffset + k |

## Left out

- The `#include` lines, the `extra_code` slot and the `CUTLASS_CHECK` macro (lines 33-57). They are fixed C++ plumbing with no generator logic.
- Exact whitespace and newlines. The model compares token sequences, because the two templates render whitespace differently.
- The Jinja2 engine: template parsing, and what happens when a substitution key is missing. Every value is a typed field of `SrcArgs` or `DeclArgs`, or a parameter of `Instance.Alias`.
- The contents of the injected slots (`instances`, `shape_eval`, `input_addr_calculator`, `output_addr_calculator`, `extra_shape`, `input_output_checks`, `exec_paths`, `config`, `config_name`). They are opaque strings. What the dispatch in `exec_paths` does is not defined in this file.
- How the generated C++ behaves at runtime: pointer dereferences, exceptions, streams. The model proves only where the bias check and the final throw sit.
- Building the instance list, detecting duplicate symbols, and warning about a catch-all instance that is not last. No code in this file does any of these. The `instances` text arrives already rendered.
- Negative ranks. Ranks are naturals in the model.
- The C++ condition `if (!bias_ptr)` and the text of a dump line after its caption, `<< *<t>_dim<i> << std::endl`. The model represents them by the name of the tested or dumped parameter.
