/** Option names and the "max of command line and config file" rule of
    src/main.cpp. The variables map that boost::program_options fills from
    the command line and from the settings file is modelled as a map from
    option name to a typed value; a config-file option is stored under its
    section-prefixed name. */
module Options {
  import opened Types

  /** The section of the settings file that holds all options. */
  const SECTION: string := "otagent"

  // Option names (src/main.cpp:27-30).
  const CLIENTS: string := "clients"
  const SERVERS: string := "servers"
  const SOCKET_PATH: string := "socket-path"
  const ENDPOINT: string := "endpoint"

  /** config_option_name: the name under which the INI parser stores option
      `name` of section "otagent". */
  function ConfigOptionName(name: string): (r: string)
    ensures |r| == |SECTION| + 1 + |name|
    ensures r[..|SECTION|] == SECTION && r[|SECTION|] == '.'
    ensures r[|SECTION| + 1..] == name
  {
    "otagent." + name
  }

  /** Prefixing is injective: distinct options never share a config key. */
  lemma ConfigOptionNameInjective(a: string, b: string)
    ensures ConfigOptionName(a) == ConfigOptionName(b) ==> a == b
  {
  }

  /** A config-file key always contains a dot, so it never collides with a
      command-line option name that has none: both kinds of value can live
      in one variables map. */
  lemma ConfigOptionNameIsNotCommandLineName(name: string, commandLine: string)
    requires '.' !in commandLine
    ensures ConfigOptionName(name) != commandLine
  {
    var r := ConfigOptionName(name);
    assert r[|SECTION|] == '.';
    assert '.' in r;
  }

  /** A value in the variables map, typed as its option declares. */
  datatype OptionValue =
    | IntValue(i: int64)
    | TextValue(s: string)
    | ListValue(items: seq<string>)

  type Variables = map<string, OptionValue>

  predicate IntOrAbsent(vars: Variables, key: string) {
    key in vars ==> vars[key].IntValue?
  }

  predicate TextOrAbsent(vars: Variables, key: string) {
    key in vars ==> vars[key].TextValue?
  }

  predicate ListOrAbsent(vars: Variables, key: string) {
    key in vars ==> vars[key].ListValue?
  }

  /** The value of an integer option, an absent one counting as 0. */
  function IntOrZero(vars: Variables, key: string): int64
    requires IntOrAbsent(vars, key)
  {
    if key in vars then vars[key].i else 0
  }

  /** max_option_value: the larger of the command-line value and the
      config-file value of option `name`. */
  function MaxOptionValue(vars: Variables, name: string): (r: int64)
    requires IntOrAbsent(vars, name) && IntOrAbsent(vars, ConfigOptionName(name))
    ensures IntOrZero(vars, name) <= r
    ensures IntOrZero(vars, ConfigOptionName(name)) <= r
    ensures r == IntOrZero(vars, name) || r == IntOrZero(vars, ConfigOptionName(name))
  {
    var commandLineValue := IntOrZero(vars, name);
    var configFileValue := IntOrZero(vars, ConfigOptionName(name));
    if commandLineValue < configFileValue then configFileValue else commandLineValue
  }

  /** When either source leaves the option unset, the result is never
      negative; when both leave it unset it is 0. */
  lemma MaxOptionValueWithAbsent(vars: Variables, name: string)
    requires IntOrAbsent(vars, name) && IntOrAbsent(vars, ConfigOptionName(name))
    requires name !in vars || ConfigOptionName(name) !in vars
    ensures MaxOptionValue(vars, name) >= 0
    ensures name !in vars && ConfigOptionName(name) !in vars ==> MaxOptionValue(vars, name) == 0
  {
  }
}
