/**
 * The process-wide configuration of the token service (pkg/utils/token.go):
 * a single slot, empty until startup installs the loaded configuration.
 */
module Config {
  import opened Wrappers

  /** The loaded settings; only `jwtSecret` is read by the modelled code. */
  datatype Config = Config(
    dbHost: string,
    dbUser: string,
    dbPassword: string,
    dbName: string,
    dbPort: string,
    jwtSecret: string,
    serverPort: string)

  /** True when a configuration is installed and its signing secret is non-empty. */
  predicate Usable(cfg: Option<Config>)
  {
    cfg.Some? && cfg.value.jwtSecret != ""
  }

  /** The package-level `config` variable and its accessors; the lock is not modelled. */
  class ConfigHolder {
    var config: Option<Config>

    constructor ()
      ensures config == None
    {
      config := None;
    }

    /** SetConfig: installs `c` (Go may pass nil, modelled as None). */
    method SetConfig(c: Option<Config>)
      modifies this
      ensures config == c
      ensures GetConfig() == c
    {
      config := c;
    }

    /** getConfig: the configuration currently installed. */
    function GetConfig(): Option<Config>
      reads this
    {
      config
    }
  }
}
