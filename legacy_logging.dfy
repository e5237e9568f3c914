/** logging.py, the older `_setup`: the same `KS_VERBOSE` table and the same
    `KS_LOG_LEVELS` requests, without the two quieted third-party loggers and
    without the deprecation-warning filter. The root threshold goes through
    `logging.basicConfig`, which does nothing once the root logger has a
    handler. */
module LegacyLogging {
  import opened LogLevels

  /** The levels after `basicConfig(level=...)`: the root threshold is set only
      when the root logger has no handler yet. */
  function LegacyStartingLevels(levels: map<Target, int>, environ: map<string, string>, rootHasHandlers: bool): (r: map<Target, int>)
    ensures forall t :: t != Root ==> (t in r <==> t in levels) && (t in r ==> r[t] == levels[t])
    ensures !rootHasHandlers ==> Root in r && r[Root] == VerbosityLevel(environ)
    ensures rootHasHandlers ==> r == levels
  {
    if rootHasHandlers then levels else levels[Root := VerbosityLevel(environ)]
  }

  /** The level decisions of the older `_setup()`; returns the logged
      errors. Whether the root logger already has a handler is a parameter:
      the handlers themselves are not modelled. */
  method Setup(loggers: Loggers, environ: map<string, string>, rootHasHandlers: bool) returns (errors: seq<Request>)
    modifies loggers
    ensures loggers.levels == AppliedRequests(LegacyStartingLevels(old(loggers.levels), environ, rootHasHandlers), RequestedSpecs(environ))
    ensures errors == Rejected(RequestedSpecs(environ))
  {
    if !rootHasHandlers {
      loggers.levels := loggers.levels[Root := VerbosityLevel(environ)];
    }
    errors := ApplyRequests(loggers, RequestedSpecs(environ));
  }

  /** The older and the newer start-up agree on every logger except the two
      the newer one quiets, and except the root logger when it already had a
      handler. */
  lemma AgreesWithNewer(levels: map<Target, int>, environ: map<string, string>, rootHasHandlers: bool, t: Target)
    requires t != Named("pymel") && t != Named("paramiko.transport")
    ensures var older := AppliedRequests(LegacyStartingLevels(levels, environ, rootHasHandlers), RequestedSpecs(environ));
      var newer := AppliedRequests(StartingLevels(levels, environ), RequestedSpecs(environ));
      (t != Root || !rootHasHandlers) ==> (t in older <==> t in newer) && (t in older ==> older[t] == newer[t])
  {
    if t != Root || !rootHasHandlers {
      RequestsPointwise(LegacyStartingLevels(levels, environ, rootHasHandlers), StartingLevels(levels, environ), RequestedSpecs(environ), t);
    }
  }

  /** With a handler already on the root logger, the older start-up leaves
      the root threshold as it was unless a request names the root. */
  lemma HandledRootKept(levels: map<Target, int>, environ: map<string, string>)
    requires forall j :: 0 <= j < |RequestedSpecs(environ)| ==> !(ParseSpec(RequestedSpecs(environ)[j]).SetLevel? && ParseSpec(RequestedSpecs(environ)[j]).target == Root)
    ensures var older := AppliedRequests(LegacyStartingLevels(levels, environ, true), RequestedSpecs(environ));
      (Root in older <==> Root in levels) && (Root in levels ==> older[Root] == levels[Root])
  {
    UnrequestedKept(levels, RequestedSpecs(environ), Root);
  }
}
