/** generate_offset.py: give the node a random offset in node-config.toml,
    unless it already has a non-zero one, and resolve the offset in force
    (the NODE_OFFSET environment variable before the config file).

    The file system, the environment and the random draw are parameters:
    `present` and `content` are what the script would find on disk, `env` is
    `os.environ.get('NODE_OFFSET')`, `draw` is `random.randint(MinOffset,
    MaxOffset)`. What would be written back is part of the result. */
module GenerateOffset {
  import opened Wrappers
  import opened OffsetPattern

  /** The inclusive bounds of the random draw: 8 to 10 decimal digits. */
  const MinOffset: nat := 10000000
  const MaxOffset: nat := 9999999999

  /** The outcome of generate_node_offset. */
  datatype Generation =
    | ConfigNotFound                          // exit status 1, nothing written
    | AlreadyConfigured(offset: nat)          // existing value returned, nothing written
    | Generated(offset: nat, written: string) // drawn value returned, file replaced by `written`

  /** generate_node_offset: read the config, keep a non-zero leftmost offset,
      otherwise draw a new one and rewrite every `offset = <digits>`. */
  function GenerateNodeOffset(present: bool, content: string, draw: nat): (g: Generation)
    requires MinOffset <= draw <= MaxOffset
    ensures g.ConfigNotFound? <==> !present
    ensures g.AlreadyConfigured? ==> g.offset != 0 && SearchOffset(content) == Some(g.offset)
    ensures g.Generated? ==> MinOffset <= g.offset <= MaxOffset
  {
    if !present then ConfigNotFound
    else
      var found := SearchOffset(content);
      if found.Some? && found.value != 0 then AlreadyConfigured(found.value)
      else Generated(draw, Sub(content, DecimalString(draw)))
  }

  /** A leftmost match with a digit other than '0' is kept as it is. */
  lemma KeepsNonZeroOffset(content: string, m: Match, draw: nat)
    requires MinOffset <= draw <= MaxOffset
    requires Search(content) == Some(m)
    requires exists i :: 0 <= i < |m.digits| && m.digits[i] != '0'
    ensures GenerateNodeOffset(true, content, draw) == AlreadyConfigured(DigitsValue(m.digits))
  {
  }

  /** No match, or a leftmost match of zeros only (`offset = 000` too): a new
      offset is drawn. */
  lemma RegeneratesZeroOffset(content: string, draw: nat)
    requires MinOffset <= draw <= MaxOffset
    requires Search(content).Some? ==> forall i :: 0 <= i < |Search(content).value.digits| ==>
      Search(content).value.digits[i] == '0'
    ensures GenerateNodeOffset(true, content, draw).Generated?
    ensures GenerateNodeOffset(true, content, draw).offset == draw
  {
  }

  /** The rewrite touches every match and nothing else: scanning the written
      text finds the same literal characters and the same matches, in the
      same order, each match now holding the decimal digits of the new
      offset. */
  lemma RewritesEveryMatch(content: string, draw: nat)
    requires MinOffset <= draw <= MaxOffset
    requires SearchOffset(content).Some? ==> SearchOffset(content).value == 0
    ensures GenerateNodeOffset(true, content, draw).Generated?
    ensures Pieces(GenerateNodeOffset(true, content, draw).written) == Fill(Pieces(content), DecimalString(draw))
  {
    PiecesOfSub(content, DecimalString(draw));
  }

  /** Without a match the file is written back unchanged, yet the drawn value
      is still returned: nothing records it, and the next run draws again. */
  lemma NoMatchWritesBackUnchanged(content: string, draw: nat)
    requires MinOffset <= draw <= MaxOffset
    requires Search(content).None?
    ensures GenerateNodeOffset(true, content, draw) == Generated(draw, content)
  {
    SearchAfterSub(content, DecimalString(draw));
  }

  /** Idempotence: on a config that has a match, a second run returns what
      the first one returned and writes nothing, whatever it draws. */
  lemma {:induction false} GenerateIdempotent(content: string, first: nat, second: nat)
    requires MinOffset <= first <= MaxOffset && MinOffset <= second <= MaxOffset
    requires Search(content).Some?
    ensures var g := GenerateNodeOffset(true, content, first);
      var after := if g.Generated? then g.written else content;
      GenerateNodeOffset(true, after, second) == AlreadyConfigured(g.offset)
  {
    var g := GenerateNodeOffset(true, content, first);
    if g.Generated? {
      SearchAfterSub(content, DecimalString(first));
    }
  }

  /** `os.environ.get('NODE_OFFSET')` is truthy: set and not empty. */
  predicate IsSet(env: Option<string>) {
    env.Some? && |env.value| > 0
  }

  /** `env_offset and env_offset.isdigit()`: the variable overrides the file. */
  predicate Overrides(env: Option<string>) {
    env.Some? && IsDigitString(env.value)
  }

  /** get_node_offset_from_env_or_config: a digit-only NODE_OFFSET, else the
      leftmost offset of an existing config file, else 0. */
  function Resolve(env: Option<string>, present: bool, content: string): (r: nat)
    ensures Overrides(env) ==> r == DigitsValue(env.value)
    ensures !Overrides(env) && present && Search(content).Some? ==>
      r == DigitsValue(Search(content).value.digits)
    ensures !Overrides(env) && (!present || Search(content).None?) ==> r == 0
  {
    if Overrides(env) then DigitsValue(env.value)
    else if present && SearchOffset(content).Some? then SearchOffset(content).value
    else 0
  }

  /** A digit-only NODE_OFFSET decides the offset whatever the file holds, and
      whether or not it exists. */
  lemma ResolveOverrideIgnoresFile(env: Option<string>, present1: bool, content1: string,
                                   present2: bool, content2: string)
    requires Overrides(env)
    ensures Resolve(env, present1, content1) == Resolve(env, present2, content2) == DigitsValue(env.value)
  {
  }

  /** Without an override, the offset is the digits of the leftmost
      `offset = <digits>` in an existing file, even inside a longer key such
      as `node_offset = 5`. */
  lemma ResolveLeftmost(env: Option<string>, content: string, p: nat, d: string)
    requires !Overrides(env)
    requires IsMatch(content, p, d)
    requires forall j :: 0 <= j < p ==> !MatchAt(content, j)
    ensures Resolve(env, true, content) == DigitsValue(d)
  {
    IsMatchDigits(content, p, d);
    var m := Search(content).value;
    assert m.start == p;
    IsMatchDigits(content, p, m.digits);
  }

  /** Without an override, an absent file or one with no match resolves to 0. */
  lemma ResolveWithoutMatchIsZero(env: Option<string>, present: bool, content: string)
    requires !Overrides(env)
    requires !present || forall j :: 0 <= j < |content| ==> !MatchAt(content, j)
    ensures Resolve(env, present, content) == 0
  {
  }

  /** The process outcome of the script: its exit status and the config file
      content it wrote, if it wrote one. */
  datatype Exit = Exit(status: int, written: Option<string>)

  /** The `__main__` block: the config file must exist; any non-empty
      NODE_OFFSET skips generation; otherwise generate_node_offset runs and
      its return value is dropped. */
  function GenerateMain(env: Option<string>, present: bool, content: string, draw: nat): (e: Exit)
    requires MinOffset <= draw <= MaxOffset
    ensures !present ==> e == Exit(1, None)
    ensures present && IsSet(env) ==> e == Exit(0, None)
    ensures e.written.Some? ==> e.status == 0 && present && !IsSet(env)
    ensures e.written.Some? ==> var after := SearchOffset(e.written.value);
      after.Some? ==> MinOffset <= after.value <= MaxOffset
    ensures present && !IsSet(env) ==> var g := GenerateNodeOffset(true, content, draw);
      && e.status == 0
      && (e.written.Some? <==> g.Generated?)
      && (e.written.Some? ==> e.written.value == g.written)
  {
    if !present then Exit(1, None)
    else if IsSet(env) then Exit(0, None)
    else
      var g := GenerateNodeOffset(true, content, draw);
      if g.Generated? then
        SearchAfterSub(content, DecimalString(draw));
        Exit(0, Some(g.written))
      else Exit(0, None)
  }

  /** With NODE_OFFSET unset or empty and a config whose leftmost offset is
      zero, the script writes a new one; running it again on what it wrote
      changes nothing. */
  lemma MainIdempotent(env: Option<string>, content: string, first: nat, second: nat)
    requires MinOffset <= first <= MaxOffset && MinOffset <= second <= MaxOffset
    requires !IsSet(env)
    requires SearchOffset(content) == Some(0)
    ensures GenerateMain(env, true, content, first).written.Some?
    ensures GenerateMain(env, true, GenerateMain(env, true, content, first).written.value, second)
      == Exit(0, None)
  {
    GenerateIdempotent(content, first, second);
  }
}
