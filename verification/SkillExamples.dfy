/** Concrete skill-service pins, and what the aggregator reads in them. */
module SkillExamples {
  import opened Wrappers
  import opened GoStrings
  import opened SkillService

  /** A pin on chain "btc" without an identity of its own. */
  function ExamplePin(id: string, path: string, operation: string, originalId: string, summary: Option<Summary>,
                      rating: Option<RatingSummary>, timestamp: int): Pin
  {
    Pin(id, "btc", path, operation, originalId, "x", summary, rating, "", "", "", "", "", timestamp)
  }

  const EXAMPLE_SUMMARY := Summary("n", "", false, [])

  lemma RatePathEnds()
    ensures PATH_RATE[0] == '/' && PATH_RATE[|PATH_RATE| - 1] == 'e' && '@' !in PATH_RATE
  {}

  lemma ServicePathEnds()
    ensures PATH_SERVICE[0] == '/' && PATH_SERVICE[|PATH_SERVICE| - 1] == 'e' && '@' !in PATH_SERVICE
  {}

  lemma LowerProtocols()
    ensures ToLower("/protocols/") == "/protocols/"
  {}

  lemma LowerNames()
    ensures ToLower("skill-service") == "skill-service" && ToLower("-rate") == "-rate"
  {}

  lemma LowerPaths()
    ensures ToLower(PATH_RATE) == PATH_RATE && ToLower(PATH_SERVICE) == PATH_SERVICE
  {
    hide ToLower;
    LowerProtocols();
    LowerNames();
    ToLowerConcat("/protocols/", "skill-service");
    ToLowerConcat("/protocols/" + "skill-service", "-rate");
    assert PATH_SERVICE == "/protocols/" + "skill-service" && PATH_RATE == "/protocols/" + "skill-service" + "-rate";
  }

  lemma Paths()
    ensures ProtocolPath(PATH_RATE) == PATH_RATE && ProtocolPath(PATH_SERVICE) == PATH_SERVICE && PATH_RATE != PATH_SERVICE
    ensures ToLower(TrimSpace("create")) == CREATE && TrimSpace("s") != "" && TrimSpace("n") != ""
  {
    hide TrimSpace, Index, TrimRight, ToLower;
    RatePathEnds();
    ServicePathEnds();
    LowerPaths();
    NothingToTrim(PATH_RATE);
    NothingToTrim(PATH_SERVICE);
    NothingToCut(PATH_RATE);
    NothingToCut(PATH_SERVICE);
    NoneFound(PATH_RATE, '@');
    NoneFound(PATH_SERVICE, '@');
    NothingToTrim("create");
    NothingToTrim("s");
    NothingToTrim("n");
    LowerCreate();
    assert |PATH_RATE| != |PATH_SERVICE|;
    assert |"s"| == 1 && |"n"| == 1;
  }

  lemma LowerCreate()
    ensures ToLower("create") == CREATE
  {}

  lemma LowerModify()
    ensures ToLower(TrimSpace("modify")) == MODIFY && TargetFromPath(PATH_SERVICE) == "" && TrimPrefix(TrimSpace("s"), "@") == "s"
    ensures CREATE != MODIFY && CREATE != REVOKE && MODIFY != REVOKE && "m" != "s" && TrimSpace("") == ""
  {
    hide TrimSpace, Index, ToLower;
    NothingToTrim("modify");
    NothingToTrim("s");
    LowerLetters();
    ServicePathEnds();
    NoneFound(PATH_SERVICE, '@');
    assert CREATE[0] == 'c' && MODIFY[0] == 'm' && REVOKE[0] == 'r' && "m"[0] != "s"[0];
    NoTrim();
  }

  lemma LowerLetters()
    ensures ToLower("modify") == MODIFY
  {}

  lemma NoTrim()
    ensures TrimSpace("") == ""
  {}
}
