/**
 * The instance template: a kernel configuration block followed by the line
 * `using <name> = <config_name>;` that gives the configured kernel type the
 * instance's symbol name.
 */
module Instance {

  datatype Option<T> = None | Some(value: T)

  function UsingPrefix(): string { "using " }

  /** The alias line `using <name> = <config_name>;`. */
  function UsingLine(name: string, configName: string): string {
    UsingPrefix() + name + " = " + configName + ";"
  }

  /** The rendered template, block by block: the configuration text verbatim,
      then the alias line. */
  function Alias(config: string, name: string, configName: string): seq<string> {
    [config, UsingLine(name, configName)]
  }

  /** Index of the first space in `s`, or `|s|` if there is none. */
  function FirstSpace(s: string): (r: nat)
    ensures r <= |s|
    ensures forall k :: 0 <= k < r ==> s[k] != ' '
    ensures r < |s| ==> s[r] == ' '
    decreases |s|
  {
    if s == [] || s[0] == ' ' then 0 else 1 + FirstSpace(s[1..])
  }

  /** Reads the alias name and the configured type back from an alias line. */
  function ParseUsing(line: string): Option<(string, string)> {
    if |line| < |UsingPrefix()| || line[..|UsingPrefix()|] != UsingPrefix() then None
    else
      var rest := line[|UsingPrefix()|..];
      var p := FirstSpace(rest);
      var tail := rest[p..];
      if |tail| < 4 || tail[..3] != " = " || tail[|tail| - 1] != ';' then None
      else Some((rest[..p], tail[3..|tail| - 1]))
  }

  /** An alias line names exactly the symbol and type it was rendered from,
      provided the symbol has no space (every C++ identifier qualifies). */
  lemma ParseUsingLine(name: string, configName: string)
    requires ' ' !in name
    ensures ParseUsing(UsingLine(name, configName)) == Some((name, configName))
  {
    var line := UsingLine(name, configName);
    var rest := line[|UsingPrefix()|..];
    assert rest == name + " = " + configName + ";";
    var p := FirstSpace(rest);
    assert rest[|name|] == ' ';
    assert p == |name|;
    var tail := rest[p..];
    assert tail == " = " + configName + ";";
    assert rest[..p] == name;
    assert tail[3..|tail| - 1] == configName;
  }

  /** The instance block carries the configuration text unchanged and an alias
      line from which the symbol and type are recovered. */
  lemma AliasRoundTrip(config: string, name: string, configName: string)
    requires ' ' !in name
    ensures |Alias(config, name, configName)| == 2
    ensures Alias(config, name, configName)[0] == config
    ensures ParseUsing(Alias(config, name, configName)[1]) == Some((name, configName))
  {
    ParseUsingLine(name, configName);
  }

  /** Different instances render differently, as a pair of blocks: the
      configuration block and the alias line. (As one flat text the output
      is not injective, since a configuration may itself contain an alias
      line.) */
  lemma AliasInjective(config: string, name: string, configName: string,
                       config': string, name': string, configName': string)
    requires ' ' !in name && ' ' !in name'
    ensures Alias(config, name, configName) == Alias(config', name', configName')
        <==> config == config' && name == name' && configName == configName'
  {
    if Alias(config, name, configName) == Alias(config', name', configName') {
      ParseUsingLine(name, configName);
      ParseUsingLine(name', configName');
    }
  }
}
