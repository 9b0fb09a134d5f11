/** Modes, and how a file and its blocks come to one for each capability. */
module Modes {
  import opened Wrappers

  /** The blast-radius ladder, least to most. */
  datatype Mode = Disabled | Observe | DryRun | Active

  function Rank(mode: Mode): (rank: nat)
    ensures rank < 4
  {
    match mode
    case Disabled => 0
    case Observe => 1
    case DryRun => 2
    case Active => 3
  }

  predicate IsAbove(mode: Mode, ceiling: Mode) {
    Rank(mode) > Rank(ceiling)
  }

  function Lower(a: Mode, b: Mode): Mode {
    if IsAbove(a, b) then b else a
  }

  datatype Block = Block(enabled: bool, mode: Option<Mode>)

  datatype Config = Config(mode: Mode, capabilities: map<string, Block>, principals: map<string, string>)

  datatype Source = Stated | Inherited

  datatype EffectiveMode = EffectiveMode(mode: Mode, source: Source)

  /** The block's own mode where it states one no higher than the file's, and the file's otherwise. */
  function EffectiveModeOf(config: Config, capability: string): EffectiveMode {
    var stated := if capability in config.capabilities then config.capabilities[capability].mode else None;
    if stated.None? || IsAbove(stated.value, config.mode) then EffectiveMode(config.mode, Inherited)
    else EffectiveMode(stated.value, Source.Stated)
  }

  predicate Enabled(config: Config, capability: string) {
    capability in config.capabilities && config.capabilities[capability].enabled
  }

  predicate AnyCapabilityActive(config: Config) {
    exists name :: name in config.capabilities && Enabled(config, name) && EffectiveModeOf(config, name).mode.Active?
  }

  /** A block lowered; a silent one inherits the lowered file. */
  function LoweredBlock(block: Block, ceiling: Mode): Block {
    if block.mode.Some? && IsAbove(block.mode.value, ceiling) then block.(mode := Some(ceiling)) else block
  }

  function Lowered(config: Config, ceiling: Mode): Config {
    config.(
      mode := Lower(config.mode, ceiling),
      capabilities := map name | name in config.capabilities :: LoweredBlock(config.capabilities[name], ceiling))
  }

  /** The loop over the file's blocks, whatever order they come in. */
  method LoweredTo(config: Config, ceiling: Mode) returns (lowered: Config)
    ensures lowered == Lowered(config, ceiling)
  {
    var capabilities: map<string, Block> := map[];
    var names := config.capabilities.Keys;
    while names != {}
      invariant names <= config.capabilities.Keys
      invariant capabilities.Keys == config.capabilities.Keys - names
      invariant forall name :: name in capabilities ==>
                  capabilities[name] == LoweredBlock(config.capabilities[name], ceiling)
      decreases names
    {
      var name :| name in names;
      var block := config.capabilities[name];
      var capped := if block.mode.Some? then block.mode.value else ceiling;
      capabilities := capabilities[name := if IsAbove(capped, ceiling) then block.(mode := Some(ceiling)) else block];
      names := names - {name};
    }
    lowered := config.(mode := if IsAbove(config.mode, ceiling) then ceiling else config.mode, capabilities := capabilities);
  }

  /** Of two modes the one that allows less. */
  lemma LowerIsTheLesser(a: Mode, b: Mode)
    ensures Rank(Lower(a, b)) == if Rank(a) <= Rank(b) then Rank(a) else Rank(b)
    ensures Lower(a, b) == a || Lower(a, b) == b
  {
  }

  /** A block never runs above its file: it runs in its own mode or the file's, whichever allows less. */
  lemma ABlockNeverExceedsItsFile(config: Config, capability: string)
    ensures var effective := EffectiveModeOf(config, capability).mode;
            var stated := capability in config.capabilities && config.capabilities[capability].mode.Some?;
            && Rank(effective) <= Rank(config.mode)
            && (stated ==> effective == Lower(config.capabilities[capability].mode.value, config.mode))
            && (!stated ==> effective == config.mode)
  {
  }

  /** A lowered file states nothing above the ceiling, and leaves as it was whatever was no higher. */
  lemma NothingIsStatedAboveTheCeiling(config: Config, ceiling: Mode, capability: string)
    requires capability in config.capabilities && config.capabilities[capability].mode.Some?
    ensures var lowered := Lowered(config, ceiling);
            && capability in lowered.capabilities
            && lowered.capabilities[capability].mode == Some(Lower(config.capabilities[capability].mode.value, ceiling))
            && lowered.capabilities[capability].enabled == config.capabilities[capability].enabled
            && lowered.principals == config.principals && lowered.mode == Lower(config.mode, ceiling)
  {
  }

  /**
   * Lowering a file lowers what every capability runs in to the lesser of its mode and the ceiling, and exactly that,
   * even for a block that states more than its file allows or a name the file does not mention.
   */
  lemma LoweringIsTheMinimum(config: Config, ceiling: Mode, capability: string)
    ensures EffectiveModeOf(Lowered(config, ceiling), capability).mode
              == Lower(EffectiveModeOf(config, capability).mode, ceiling)
    ensures Enabled(Lowered(config, ceiling), capability) == Enabled(config, capability)
  {
    if capability in config.capabilities {
      assert Lowered(config, ceiling).capabilities[capability] == LoweredBlock(config.capabilities[capability], ceiling);
    }
  }

  /** Lowered below `active`, no capability is; at `active`, just those that were. */
  lemma LoweredBelowActive(config: Config, ceiling: Mode)
    ensures AnyCapabilityActive(Lowered(config, ceiling)) <==> ceiling.Active? && AnyCapabilityActive(config)
  {
    var lowered := Lowered(config, ceiling);
    forall name
      ensures Enabled(lowered, name) == Enabled(config, name)
      ensures EffectiveModeOf(lowered, name).mode == Lower(EffectiveModeOf(config, name).mode, ceiling)
    {
      LoweringIsTheMinimum(config, ceiling, name);
    }
    if AnyCapabilityActive(config) && ceiling.Active? {
      var name :| name in config.capabilities && Enabled(config, name) && EffectiveModeOf(config, name).mode.Active?;
      assert name in lowered.capabilities;
    }
  }

  /** Lowering twice is lowering once, to the lesser ceiling. */
  lemma LoweringComposes(config: Config, a: Mode, b: Mode)
    ensures Lowered(Lowered(config, a), b) == Lowered(config, Lower(a, b))
  {
    forall name | name in config.capabilities
      ensures LoweredBlock(LoweredBlock(config.capabilities[name], a), b)
                == LoweredBlock(config.capabilities[name], Lower(a, b))
    {
    }
    assert Lowered(Lowered(config, a), b).capabilities == Lowered(config, Lower(a, b)).capabilities;
  }
}
