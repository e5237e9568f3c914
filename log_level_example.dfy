/** The example of sitetools/logging.py's documentation, worked through the
    level requests: `KS_LOG_LEVELS=:WARNING,mayatools:DEBUG`. */
module LogLevelExample {
  import opened Strings
  import opened LogLevels

  /** `KS_LOG_LEVELS=:WARNING,mayatools:DEBUG` puts the root threshold at
      WARNING and `mayatools` at DEBUG, after the start-up levels. */
  lemma WarningButMayatoolsDebug(levels: map<Target, int>)
    ensures var environ := map["KS_LOG_LEVELS" := ":WARNING,mayatools:DEBUG"];
      var after := AppliedRequests(StartingLevels(levels, environ), RequestedSpecs(environ));
      Root in after && after[Root] == WARNING && Named("mayatools") in after && after[Named("mayatools")] == DEBUG
  {
    ExampleItems();
    RootWarningItem();
    MayatoolsDebugItem();
    TwoRequests(StartingLevels(levels, map["KS_LOG_LEVELS" := ":WARNING,mayatools:DEBUG"]), ":WARNING", "mayatools:DEBUG");
  }

  /** The value splits into the two items. */
  lemma ExampleItems()
    ensures RequestedSpecs(map["KS_LOG_LEVELS" := ":WARNING,mayatools:DEBUG"]) == [":WARNING", "mayatools:DEBUG"]
  {
    ExampleJoined();
    TwoSpecs(":WARNING,mayatools:DEBUG", ":WARNING", "mayatools:DEBUG");
  }

  lemma ExampleJoined()
    ensures ":WARNING,mayatools:DEBUG" == ":WARNING" + "," + "mayatools:DEBUG"
  {
  }

  /** `:WARNING` is one item, and it sets the root logger to WARNING. */
  lemma RootWarningItem()
    ensures ParseSpec(":WARNING") == SetLevel(Root, WARNING)
  {
    RootWarningPieces();
    WarningByName();
    assert Strip("") == "";
  }

  lemma RootWarningPieces()
    ensures Split(":WARNING", ':') == ["", "WARNING"]
  {
    SplitAround("", "WARNING", ':');
    SplitFree("WARNING", ':');
    assert [] + [':'] + "WARNING" == ":WARNING";
  }

  /** `mayatools:DEBUG` is one item, and it sets `mayatools` to DEBUG. */
  lemma MayatoolsDebugItem()
    ensures ParseSpec("mayatools:DEBUG") == SetLevel(Named("mayatools"), DEBUG)
  {
    NoWhitespace("mayatools");
    StripNoSpace("mayatools");
    MayatoolsDebugPieces();
    DebugByName();
  }

  lemma MayatoolsDebugPieces()
    ensures Split("mayatools:DEBUG", ':') == ["mayatools", "DEBUG"]
  {
    SplitAround("mayatools", "DEBUG", ':');
    SplitFree("DEBUG", ':');
    assert "mayatools" + [':'] + "DEBUG" == "mayatools:DEBUG";
  }
}
