/** Display names for machine and experiment tags (`Ppbench.machine`, `Ppbench.experiment`).
    The naming overlay is a JSON object whose optional sections "machines" and
    "experiments" map tags to display names; it is passed explicitly here. */
module PpbenchNaming {

  type Naming = map<string, map<string, string>>

  const MachinesSection: string := "machines"
  const ExperimentsSection: string := "experiments"

  /** Shared body of `machine` and `experiment`: an empty overlay, a missing
      section and an unmapped key all fall back to the key itself. */
  function Lookup(naming: Naming, section: string, key: string): (name: string)
    ensures section in naming && key in naming[section] ==> name == naming[section][key]
    ensures section !in naming || key !in naming[section] ==> name == key
  {
    if naming == map[] then key
    else if section !in naming then key
    else if key in naming[section] then naming[section][key]
    else key
  }

  function Machine(naming: Naming, key: string): (name: string)
    ensures name != key ==> MachinesSection in naming && key in naming[MachinesSection]
                            && name == naming[MachinesSection][key]
    ensures MachinesSection !in naming || key !in naming[MachinesSection] ==> name == key
    ensures MachinesSection in naming && key in naming[MachinesSection]
            ==> name == naming[MachinesSection][key]
  {
    Lookup(naming, MachinesSection, key)
  }

  function Experiment(naming: Naming, key: string): (name: string)
    ensures name != key ==> ExperimentsSection in naming && key in naming[ExperimentsSection]
                            && name == naming[ExperimentsSection][key]
    ensures ExperimentsSection !in naming || key !in naming[ExperimentsSection] ==> name == key
    ensures ExperimentsSection in naming && key in naming[ExperimentsSection]
            ==> name == naming[ExperimentsSection][key]
  {
    Lookup(naming, ExperimentsSection, key)
  }
}
