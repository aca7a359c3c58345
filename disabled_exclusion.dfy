/**
 * The "retain local disabled setting" exclusion (`DisabledExclusion`): before
 * a template's configuration is cloned onto an implementation project it
 * remembers the project's `disabled` flag, and afterwards it writes that flag
 * back, so each implementation keeps its own enabled/disabled state.
 */
module Exclusion {
  import opened Host

  class DisabledExclusion {
    /** The flag captured by the last `PreClone`. */
    var disabled: bool

    /** Java's default value of a `boolean` field. */
    constructor ()
      ensures !disabled
    {
      disabled := false;
    }

    /** `getId()`. */
    function GetId(): (id: string) {
      "disabled"
    }

    /** `getDescription()`. */
    function GetDescription(): (description: string) {
      "Retain local disabled setting"
    }

    /** `preClone`: captures the project's `isDisabled()` value and leaves the project alone. */
    method PreClone(project: Project)
      modifies this
      ensures disabled == project.IsDisabled()
      ensures unchanged(project)
    {
      disabled := project.IsDisabled();
    }

    /**
     * `postClone`: force-writes the captured flag onto the project's
     * `disabled` field, bypassing any setter; nothing else of the project and
     * not the captured flag changes.
     */
    method PostClone(project: Project)
      modifies project`disabled
      ensures project.disabled == disabled
      ensures project.configuration == old(project.configuration)
      ensures disabled == old(disabled)
    {
      project.disabled := disabled;
    }
  }

  /** The identifier and the description are the fixed labels the UI lists. */
  lemma Labels(exclusion: DisabledExclusion)
    ensures exclusion.GetId() == "disabled"
    ensures exclusion.GetDescription() == "Retain local disabled setting"
  {
  }

  /**
   * How the templating code uses the exclusion: capture, clone the template's
   * configuration over the project (which overwrites its flag), restore. The
   * project ends with the template's configuration and its own earlier flag,
   * whichever value the clone wrote.
   */
  method CloneRetainingDisabled(exclusion: DisabledExclusion, project: Project, templateDisabled: bool, templateConfiguration: string)
    modifies exclusion, project
    ensures project.disabled == old(project.disabled)
    ensures project.configuration == templateConfiguration
    ensures exclusion.disabled == old(project.disabled)
  {
    exclusion.PreClone(project);
    project.disabled := templateDisabled;
    project.configuration := templateConfiguration;
    exclusion.PostClone(project);
  }
}
