/** State that visitors and managers share: the key index and the executor's task channel. */
module SharedState {
  import opened Types
  import opened GatewayState

  /** `services_by_proxy_key`, the one map all visitors share. */
  class SharedIndex {
    var services: map<string, U64>

    constructor ()
      ensures services == map[]
    {
      services := map[];
    }
  }

  /**
   * The sending side of the executor's task channel. A send fails once the receiver is gone, and that can
   * happen at any time; from then on every send fails.
   */
  class TaskSender {
    var sent: seq<Task>
    var refused: seq<Task>

    constructor ()
      ensures sent == [] && refused == []
    {
      sent, refused := [], [];
    }

    method Send(task: Task) returns (ok: bool)
      modifies this
      ensures ok ==> sent == old(sent) + [task] && refused == old(refused) == []
      ensures !ok ==> sent == old(sent) && refused == old(refused) + [task]
    {
      ok := *;
      if refused == [] && ok {
        sent := sent + [task];
      } else {
        ok, refused := false, refused + [task];
      }
    }
  }
}
