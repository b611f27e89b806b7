/** The connection: one call per method, each using up one turn of the oracle. */
module MailClient {
  import opened Outcomes
  import S = ImapServer

  class Client {
    const oracle: S.Oracle
    var world: S.World

    constructor (oracle: S.Oracle, world: S.World)
      ensures this.oracle == oracle && this.world == world
    {
      this.oracle := oracle;
      this.world := world;
    }

    method GetMailboxLock(box: string) returns (r: Result<S.Selection>)
      modifies this
      ensures (world, r) == S.Open(oracle, old(world), box)
    {
      var answer := S.Open(oracle, world, box);
      world, r := answer.0, answer.1;
    }

    /** `live()`: the connection in use from here on. */
    method Live() returns (conn: nat)
      modifies this
      ensures world == S.Attach(oracle, old(world)) && conn == world.conn
    {
      world := S.Attach(oracle, world);
      conn := world.conn;
    }

    /** A connection of its own for one operation. */
    method Connect() returns (conn: nat)
      modifies this
      ensures world == S.Reconnect(old(world)) && conn == world.conn
    {
      world := S.Reconnect(world);
      conn := world.conn;
    }

    method LockHeld(conn: nat, box: string) returns (r: Result<S.Selection>)
      modifies this
      ensures (world, r) == S.LockOn(oracle, old(world), conn, box)
    {
      var answer := S.LockOn(oracle, world, conn, box);
      world, r := answer.0, answer.1;
    }

    method FetchAll(sel: S.Selection) returns (r: Result<seq<(nat, S.Message)>>)
      modifies this
      ensures (world, r) == S.FetchAll(oracle, old(world), sel)
    {
      var answer := S.FetchAll(oracle, world, sel);
      world, r := answer.0, answer.1;
    }

    method Search(sel: S.Selection, uid: nat) returns (r: Result<bool>)
      modifies this
      ensures (world, r) == S.Search(oracle, old(world), sel, uid)
    {
      var answer := S.Search(oracle, world, sel, uid);
      world, r := answer.0, answer.1;
    }

    method FetchOne(sel: S.Selection, uid: nat) returns (r: Result<Option<S.Raw>>)
      modifies this
      ensures (world, r) == S.FetchOne(oracle, old(world), sel, uid)
    {
      var answer := S.FetchOne(oracle, world, sel, uid);
      world, r := answer.0, answer.1;
    }

    method List() returns (r: Result<seq<(string, seq<string>)>>)
      modifies this
      ensures (world, r) == S.ListBoxes(oracle, old(world))
    {
      var answer := S.ListBoxes(oracle, world);
      world, r := answer.0, answer.1;
    }

    method Append(conn: nat, box: string, raw: S.Raw, flags: seq<string>) returns (r: Result<Option<nat>>)
      modifies this
      ensures (world, r) == S.Append(oracle, old(world), conn, box, raw, flags)
    {
      var answer := S.Append(oracle, world, conn, box, raw, flags);
      world, r := answer.0, answer.1;
    }

    method MessageMove(sel: S.Selection, uid: nat, bin: string) returns (r: Result<bool>)
      modifies this
      ensures (world, r) == S.Move(oracle, old(world), sel, uid, bin)
    {
      var answer := S.Move(oracle, world, sel, uid, bin);
      world, r := answer.0, answer.1;
    }

    method MessageDelete(sel: S.Selection, uid: nat) returns (r: Result<bool>)
      modifies this
      ensures (world, r) == S.Delete(oracle, old(world), sel, uid)
    {
      var answer := S.Delete(oracle, world, sel, uid);
      world, r := answer.0, answer.1;
    }

    /** `capabilities.has('UIDPLUS')`, known since the connection was made. */
    predicate HasUidPlus()
      reads this
    {
      world.server.uidplus
    }
  }
}
