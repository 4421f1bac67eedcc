/** The minimal singleton: a configuration holding only an API URL, created
    on first request, plus two static predicates over `NODE_ENV`. */
module AppConfigSimple {
  import Full = AppConfig

  type Env = map<string, string>

  const DefaultApiUrl: string := "http://localhost:3000/"

  class AppConfig {
    const apiUrl: string

    constructor (apiUrl: string)
      ensures this.apiUrl == apiUrl
    {
      this.apiUrl := apiUrl;
    }
  }

  /** The static side of `AppConfig`: the one stored instance, if any. */
  class AppConfigStatics {
    var instance: AppConfig?

    constructor ()
      ensures instance == null
    {
      instance := null;
    }

    /** `getInstance`: the first call stores a new instance for the default
        URL; every later call returns the stored one and replaces nothing. */
    method GetInstance() returns (r: AppConfig)
      modifies this
      ensures old(instance) == null ==> fresh(r) && r.apiUrl == DefaultApiUrl
      ensures old(instance) != null ==> r == old(instance)
      ensures instance == r
    {
      if instance == null {
        instance := new AppConfig(DefaultApiUrl);
        return instance;
      }
      return instance;
    }
  }

  /** The usage: two calls yield the very same object. */
  method GetInstanceTwice(statics: AppConfigStatics) returns (config: AppConfig, config1: AppConfig)
    modifies statics
    ensures config == config1 && statics.instance == config
    ensures old(statics.instance) == null ==> config.apiUrl == DefaultApiUrl
  {
    config := statics.GetInstance();
    config1 := statics.GetInstance();
  }

  /** `isProduction()`: `NODE_ENV` is exactly `"production"`. */
  predicate IsProduction(env: Env) {
    "NODE_ENV" in env && env["NODE_ENV"] == "production"
  }

  /** `isDevelopment()`: anything but production, unset included. */
  predicate IsDevelopment(env: Env) {
    !("NODE_ENV" in env && env["NODE_ENV"] == "production")
  }

  /** Exactly one of the two predicates holds, for every environment. */
  lemma DevelopmentIsNotProduction(env: Env)
    ensures IsDevelopment(env) <==> !IsProduction(env)
    ensures !("NODE_ENV" in env) ==> IsDevelopment(env)
  {
  }

  /** Both configurations agree on production, but under `"staging"` this
      one reports development, which the full configuration does not. */
  lemma AgreesWithFull(env: Env)
    ensures IsProduction(env) <==> Full.IsProduction(env)
    ensures IsDevelopment(env) && !Full.IsDevelopment(env) <==>
      Full.Present(env, "NODE_ENV") && env["NODE_ENV"] != "development" && env["NODE_ENV"] != "production"
  {
  }

  lemma StagingDiffers()
    ensures IsDevelopment(map["NODE_ENV" := "staging"])
    ensures !Full.IsDevelopment(map["NODE_ENV" := "staging"])
    ensures Full.IsStaging(map["NODE_ENV" := "staging"])
  {
  }
}
