/** When the launcher asks for a stale lock to be cleared:
    `_should_clear_stale_data_workflow_lock` in tools/stack_data_workflow.py. */
module StaleLock {

  datatype Deployment = Running | Cancelled | Succeeded | OtherStatus

  /** No deployment runs, and the newest one that was cancelled or succeeded was cancelled;
      deployments are listed newest first. */
  predicate ShouldClear(deployments: seq<Deployment>) {
    && Running !in deployments
    && exists k :: 0 <= k < |deployments| && deployments[k] == Cancelled && Succeeded !in deployments[..k]
  }

  method ShouldClearStaleLock(deployments: seq<Deployment>) returns (clear: bool)
    ensures clear <==> ShouldClear(deployments)
  {
    if deployments == [] || Running in deployments {
      return false;
    }
    for k := 0 to |deployments|
      invariant forall j :: 0 <= j < k ==> deployments[j] != Cancelled && deployments[j] != Succeeded
    {
      if deployments[k] == Cancelled {
        return true;
      }
      if deployments[k] == Succeeded {
        FirstSuccess(deployments, k);
        return false;
      }
    }
    clear := false;
  }

  lemma FirstSuccess(deployments: seq<Deployment>, k: nat)
    requires k < |deployments| && deployments[k] == Succeeded
    requires forall j :: 0 <= j < k ==> deployments[j] != Cancelled
    ensures !ShouldClear(deployments)
  {
    forall j | 0 <= j < |deployments| && deployments[j] == Cancelled ensures Succeeded in deployments[..j] {
      assert deployments[..j][k] == Succeeded;
    }
  }

  /** Read from the newest deployment on: it alone decides if it is running, cancelled or
      succeeded, unless an older one still runs, and otherwise the older ones do. */
  lemma ClearFromNewest(newest: Deployment, older: seq<Deployment>)
    ensures !ShouldClear([])
    ensures ShouldClear([newest] + older) <==>
      match newest
      case Running => false
      case Succeeded => false
      case Cancelled => Running !in older
      case OtherStatus => ShouldClear(older)
  {
    var all := [newest] + older;
    assert Running in all <==> newest.Running? || Running in older;
    assert forall k :: 0 <= k < |older| ==> all[k + 1] == older[k] && all[..k + 1] == [newest] + older[..k];
    if newest.Cancelled? {
      assert all[0] == Cancelled && all[..0] == [];
    }
    if newest.OtherStatus? && ShouldClear(older) {
      var k :| 0 <= k < |older| && older[k] == Cancelled && Succeeded !in older[..k];
      assert all[k + 1] == Cancelled && Succeeded !in all[..k + 1];
    }
    if ShouldClear(all) && newest.OtherStatus? {
      var k :| 0 <= k < |all| && all[k] == Cancelled && Succeeded !in all[..k];
      assert older[k - 1] == Cancelled && Succeeded !in older[..k - 1];
    }
  }
}
