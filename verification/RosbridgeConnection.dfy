// The connection of a rosbridge client (roslibrust_rosbridge/src/client.rs): a read/write lock
// around the client, a flag that says the connection is lost, and the spin task that notices a
// failure and reconnects, again and again if need be.
module RosbridgeConnection {

  // Where the spin task is. It holds the lock for writing while `Connecting` and `Restoring`.
  datatype Phase = Spinning | Failed | Retrying | Connecting | Restoring | Restored

  // `epoch` counts the connections; `readers` are the tasks that hold the lock for reading.
  datatype Connection = Connection(epoch: nat, disconnected: bool, phase: Phase, readers: set<nat>)

  const CONNECTED: Connection := Connection(0, false, Spinning, {})

  predicate WriteLocked(c: Connection) { c.phase.Connecting? || c.phase.Restoring? }

  // `Fail` sets the flag; `DropCalls` is the cleanup right after it. `TakeLock` waits until no
  // reader is left; `Connect` replaces the connection; `RestoreFails` and `RestoreSucceeds`
  // end the attempt and give the lock back; `ClearFlag` ends the reconnection.
  datatype SpinStep = Fail | DropCalls | TakeLock | Connect | RestoreFails | RestoreSucceeds | ClearFlag

  predicate CanSpin(c: Connection, step: SpinStep) {
    match step
    case Fail => c.phase.Spinning?
    case DropCalls => c.phase.Failed?
    case TakeLock => c.phase.Retrying? && c.readers == {}
    case Connect => c.phase.Connecting?
    case RestoreFails => c.phase.Restoring?
    case RestoreSucceeds => c.phase.Restoring?
    case ClearFlag => c.phase.Restored?
  }

  function Spin(c: Connection, step: SpinStep): Connection
    requires CanSpin(c, step)
  {
    match step
    case Fail => c.(disconnected := true, phase := Failed)
    case DropCalls => c.(phase := Retrying)
    case TakeLock => c.(phase := Connecting)
    case Connect => c.(phase := Restoring, epoch := c.epoch + 1)
    case RestoreFails => c.(phase := Retrying)
    case RestoreSucceeds => c.(phase := Restored)
    case ClearFlag => c.(disconnected := false, phase := Spinning)
  }

  function StartReading(c: Connection, task: nat): Connection { c.(readers := c.readers + {task}) }

  function StopReading(c: Connection, task: nat): Connection { c.(readers := c.readers - {task}) }

  // The flag is set exactly while the spin task reconnects, and nobody reads while it writes.
  ghost predicate Consistent(c: Connection) {
    (c.disconnected <==> !c.phase.Spinning?) && (WriteLocked(c) ==> c.readers == {})
  }
}
