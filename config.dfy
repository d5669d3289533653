/** The scanner's configuration and its validation (validateConfig in main.go).
    Validation runs four checks in a fixed order and reports the first that
    fails; each check has its own error. */
module ConfigCheck {

  /** The settings that validateConfig reads. */
  datatype Settings = Settings(
    port: int,
    inputFile: string,
    outputFile: string,
    rate: int,
    disableBench: bool,
    benchPrompt: string)

  /** One error per check, in the order the checks run. */
  datatype ConfigError =
    | InvalidPort(port: int)   // "invalid port number: %d"
    | EmptyFilePath            // "input or output file path cannot be empty"
    | NonPositiveRate          // "scan rate must be greater than 0"
    | EmptyBenchPrompt         // "benchmark prompt cannot be empty when performance testing is enabled"

  datatype Outcome = Pass | Fail(error: ConfigError)

  const MaxPort := 65535

  predicate PortOk(s: Settings) { 0 < s.port <= MaxPort }
  predicate PathsOk(s: Settings) { s.inputFile != "" && s.outputFile != "" }
  predicate RateOk(s: Settings) { s.rate > 0 }
  predicate PromptOk(s: Settings) { s.disableBench || s.benchPrompt != "" }

  /** What a usable configuration is, regardless of the order of the checks. */
  predicate Acceptable(s: Settings) {
    PortOk(s) && PathsOk(s) && RateOk(s) && PromptOk(s)
  }

  /** validateConfig: the first failing check decides the error. */
  function Validate(s: Settings): (r: Outcome)
    ensures r.Pass? <==> Acceptable(s)
    ensures r == Fail(InvalidPort(s.port)) <==> !PortOk(s)
    ensures r == Fail(EmptyFilePath) <==> PortOk(s) && !PathsOk(s)
    ensures r == Fail(NonPositiveRate) <==> PortOk(s) && PathsOk(s) && !RateOk(s)
    ensures r == Fail(EmptyBenchPrompt) <==> PortOk(s) && PathsOk(s) && RateOk(s) && !PromptOk(s)
  {
    if s.port <= 0 || s.port > MaxPort then Fail(InvalidPort(s.port))
    else if s.inputFile == "" || s.outputFile == "" then Fail(EmptyFilePath)
    else if s.rate <= 0 then Fail(NonPositiveRate)
    else if !s.disableBench && s.benchPrompt == "" then Fail(EmptyBenchPrompt)
    else Pass
  }

  /** The benchmark prompt only matters when benchmarking is on: with it off,
      changing the prompt never changes the verdict. */
  lemma PromptIgnoredWhenBenchDisabled(s: Settings, prompt: string)
    requires s.disableBench
    ensures Validate(s.(benchPrompt := prompt)) == Validate(s)
  {
  }
}
