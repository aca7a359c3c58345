/**
 * Stand-ins for the host server's types that the plugin core uses but does not
 * define. Only object identity and the `disabled` flag matter to the core.
 */
module Host {

  /** A persistable host object (a job). The guard compares these by identity only. */
  class Saveable {
    constructor () {}
  }

  /**
   * The part of a host project that the disabled-flag exclusion touches: its
   * `disabled` flag, plus the rest of its configuration, which a template
   * clone overwrites.
   */
  class Project {
    var disabled: bool
    var configuration: string

    constructor (disabled: bool, configuration: string)
      ensures this.disabled == disabled && this.configuration == configuration
    {
      this.disabled := disabled;
      this.configuration := configuration;
    }

    /** The host's `isDisabled()` accessor. */
    function IsDisabled(): (isDisabled: bool)
      reads this
    {
      disabled
    }
  }
}
