/**
 * Whole sessions driven through Update: a climb from the start row to the
 * finish line, and a session that loads, plays any run of events and then
 * restarts from an end screen.
 */
module GameScenarios {
  import opened Wrappers
  import opened Grype
  import opened GameModel
  import opened GameRules
  import opened GameEngine

  /** Pressing "up" from the start row visits every row once, from 19 down to
      0, and wins on the last press; nothing quits along the way. */
  method ClimbToFinish(m: Model) returns (m': Model, rows: seq<int>)
    requires m.state == Playing && m.frog.y == GameAreaHeight - 1
    ensures m'.state == Victory && m'.frog == Position(m.frog.x, 0) && m'.hasMoved
    ensures |rows| == GameAreaHeight
    ensures forall k :: 0 <= k < |rows| ==> rows[k] == GameAreaHeight - 1 - k
    ensures m'.obstacles == m.obstacles && m'.lanes == m.lanes && m'.width == m.width
  {
    m' := m;
    rows := [m.frog.y];
    for i := 0 to GameAreaHeight - 1
      invariant m'.frog == Position(m.frog.x, GameAreaHeight - 1 - i)
      invariant m'.state == (if i == GameAreaHeight - 1 then Victory else Playing)
      invariant i > 0 ==> m'.hasMoved
      invariant |rows| == i + 1
      invariant forall k :: 0 <= k < |rows| ==> rows[k] == GameAreaHeight - 1 - k
      invariant m'.obstacles == m.obstacles && m'.lanes == m.lanes && m'.width == m.width
    {
      var cmd;
      m', cmd := Update(m', KeyMsg("up"));
      assert cmd == NoCmd;
      rows := rows + [m'.frog.y];
    }
  }

  /** A session that loads `vulns`, plays any events other than loads and
      resizes, and ends on an end screen: pressing enter there rebuilds the
      very course the load built, and the session stays consistent throughout. */
  method LoadPlayRestart(m: Model, vulns: seq<Vulnerability>, events: seq<Msg>)
    returns (first: Model, last: Model, again: Model)
    requires Consistent(m)
    requires forall k :: 0 <= k < |events| ==> !events[k].VulnsLoadedMsg? && !events[k].WindowSizeMsg?
    ensures Consistent(first) && Consistent(last) && Consistent(again)
    ensures first.state == Playing && first.loadedVulns == vulns
    ensures last.loadedVulns == vulns && last.width == first.width
    ensures last.state == GameOver || last.state == Victory ==>
      again.state == Playing && again.obstacles == first.obstacles && again.lanes == first.lanes &&
      again.frog == first.frog && !again.hasMoved && again.collisionObs == None
  {
    var cmd;
    UpdatePreservesConsistent(m, VulnsLoadedMsg(vulns));
    first, cmd := Update(m, VulnsLoadedMsg(vulns));
    last := first;
    for i := 0 to |events|
      invariant Consistent(last)
      invariant last.loadedVulns == vulns && last.width == first.width
    {
      UpdatePreservesConsistent(last, events[i]);
      last, cmd := Update(last, events[i]);
    }
    UpdatePreservesConsistent(last, KeyMsg("enter"));
    again, cmd := Update(last, KeyMsg("enter"));
    if last.state == GameOver || last.state == Victory {
      RestartReproducesLoad(m, last, vulns);
    }
  }
}
