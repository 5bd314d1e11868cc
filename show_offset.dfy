/** show_offset.py: report the node offset in force and where it came from.
    Its get_node_offset_from_env_or_config is the same function as in
    generate_offset.py and is modelled once, as GenerateOffset.Resolve. */
module ShowOffset {
  import opened Wrappers
  import opened OffsetPattern
  import opened GenerateOffset

  /** The line the script prints. */
  datatype Report =
    | FromEnvironment(offset: nat)  // "Current node offset (from NODE_OFFSET environment variable): ..."
    | FromConfig(offset: nat)       // "Current node offset (from node-config.toml): ..."
    | NotConfigured                 // "No node offset configured." and the hints after it

  /** The `__main__` block: resolve the offset, then pick the label by whether
      NODE_OFFSET is set (non-empty), not by where the value came from. */
  function CurrentOffsetReport(env: Option<string>, present: bool, content: string): (r: Report)
    ensures r.NotConfigured? ==> !IsSet(env) && Resolve(env, present, content) == 0
    ensures !r.NotConfigured? ==> r.offset == Resolve(env, present, content)
    ensures r.FromEnvironment? <==> IsSet(env)
  {
    var offset := Resolve(env, present, content);
    if IsSet(env) then FromEnvironment(offset)
    else if offset != 0 then FromConfig(offset)
    else NotConfigured
  }

  /** A digit-only NODE_OFFSET is reported as it is, whatever the file says. */
  lemma ReportsOverride(env: Option<string>, present: bool, content: string)
    requires Overrides(env)
    ensures CurrentOffsetReport(env, present, content) == FromEnvironment(DigitsValue(env.value))
  {
  }

  /** A NODE_OFFSET that is set but not all digits is ignored for the value,
      which comes from the leftmost match of the file, yet the report still
      says it came from the environment variable. */
  lemma MislabelsConfigValue(env: Option<string>, content: string, p: nat, d: string)
    requires IsSet(env) && !IsDigitString(env.value)
    requires IsMatch(content, p, d)
    requires forall j :: 0 <= j < p ==> !MatchAt(content, j)
    ensures CurrentOffsetReport(env, true, content) == FromEnvironment(DigitsValue(d))
  {
    ResolveLeftmost(env, content, p, d);
  }

  /** With NODE_OFFSET unset or empty, a leftmost match holding a digit other
      than '0' is reported as coming from the config file. */
  lemma ReportsConfigValue(env: Option<string>, content: string, m: Match)
    requires !IsSet(env)
    requires Search(content) == Some(m)
    requires exists i :: 0 <= i < |m.digits| && m.digits[i] != '0'
    ensures CurrentOffsetReport(env, true, content) == FromConfig(DigitsValue(m.digits))
  {
  }

  /** With NODE_OFFSET unset or empty, an absent file, a file without a match,
      or a leftmost match of zeros only is reported as not configured. */
  lemma ReportsNotConfigured(env: Option<string>, present: bool, content: string)
    requires !IsSet(env)
    requires present && Search(content).Some? ==>
      forall i :: 0 <= i < |Search(content).value.digits| ==> Search(content).value.digits[i] == '0'
    ensures CurrentOffsetReport(env, present, content) == NotConfigured
  {
  }
}
