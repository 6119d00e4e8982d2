// Server cursors: who holds them, and the queue of those to be closed with the next request.
module Cursors {

  datatype Kind = Query | Other

  /** What the server answers: cursors of implicit results, the statement's cursor (0 for none), and an error code (0 for none). */
  datatype Reply = Reply(implicit: seq<nat>, cursorID: nat, code: nat, needsDefine: bool)

  const NO_DATA_FOUND := 1403
  const ARRAY_DML_ERRORS := 24381
  const VAR_NOT_IN_SELECT_LIST := 1007
  const INCONSISTENT_DATA_TYPES := 932
  const INTEGRITY_ERRORS := {1, 1400, 1438, 2290, 2291, 2292, 2296, 2297, 2299, 12899}

  predicate Distinct(ids: seq<nat>) {
    forall i, j :: 0 <= i < j < |ids| ==> ids[i] != ids[j]
  }

  lemma NoneTwice()
    ensures Distinct([])
  {
  }

  function AsSet(ids: seq<nat>): set<nat> {
    set id | id in ids
  }

  lemma OneMore(ids: seq<nat>, id: nat)
    requires Distinct(ids) && id !in AsSet(ids)
    ensures Distinct(ids + [id]) && AsSet(ids + [id]) == AsSet(ids) + {id} && (0 in ids + [id] <==> 0 in ids || id == 0)
  {
  }

  /** Implicit results are fresh, and so is the statement's cursor, unless it is the one it had or none. */
  predicate Admissible(r: Reply, open: set<nat>, cursorID: nat) {
    Distinct(r.implicit) && AsSet(r.implicit) !! open && 0 !in r.implicit
    && (r.cursorID == 0 || r.cursorID == cursorID || r.cursorID !in open) && r.cursorID !in r.implicit
  }

  /** The answer names another cursor for a statement that had one. */
  predicate Swaps(r: Reply, cursorID: nat) {
    cursorID != 0 && r.cursorID != 0 && r.cursorID != cursorID
  }

  /** The next answer of a script, if it is one a server may give; no news behind the end. */
  function Answer(script: seq<Reply>, open: set<nat>, cursorID: nat): (r: Reply)
    ensures Admissible(r, open, cursorID)
  {
    if script != [] && Admissible(script[0], open, cursorID) then script[0] else Reply([], 0, 0, false)
  }

  /**
    * The server's side. It must be asked to close only what is open, each cursor once, and to work only on
    * what stays open. What it answers is a script: any answers at all, as long as they end some day.
    */
  class Server {
    var open: set<nat>
    var script: seq<Reply>
    ghost var swapped: bool   // some answer named another cursor for a statement that had one
    ghost var requests: nat   // the round trips so far

    constructor (script: seq<Reply>)
      ensures open == {} && this.script == script && !swapped && requests == 0
    {
      open, this.script, swapped, requests := {}, script, false, 0;
    }

    /** A request that works on no cursor: the piggybacked closes alone. */
    method HandleSimple(close: seq<nat>)
      requires Distinct(close) && AsSet(close) <= open
      modifies this
      ensures open == old(open) - AsSet(close) && script == old(script) && swapped == old(swapped) && requests == old(requests) + 1
    {
      open := open - AsSet(close);
      requests := requests + 1;
    }

    method Handle(close: seq<nat>, cursorID: nat) returns (r: Reply)
      requires Distinct(close) && AsSet(close) <= open
      requires cursorID != 0 ==> cursorID in open && cursorID !in close
      modifies this
      ensures r == Answer(old(script), old(open) - AsSet(close), cursorID)
      ensures open == old(open) - AsSet(close) + AsSet(r.implicit) + (if r.cursorID == 0 then {} else {r.cursorID})
      ensures script == if old(script) == [] then [] else old(script)[1..]
      ensures swapped == (old(swapped) || Swaps(r, cursorID)) && requests == old(requests) + 1
    {
      requests := requests + 1;
      open := open - AsSet(close);
      r := Answer(script, open, cursorID);
      open := open + AsSet(r.implicit) + (if r.cursorID == 0 then {} else {r.cursorID});
      script := if script == [] then [] else script[1..];
      swapped := swapped || Swaps(r, cursorID);
    }
  }

  // ---- the client ----

  class Statement {
    const kind: Kind
    const isChild: bool
    var cursorID: nat
    var closed: bool
    var moreRows: bool
    var implicit: Statement?
    ghost const parent: Statement?   // of an implicit result

    constructor (kind: Kind, isChild: bool, cursorID: nat, ghost parent: Statement?)
      ensures this.kind == kind && this.isChild == isChild && this.cursorID == cursorID && this.parent == parent
      ensures !closed && moreRows == isChild && implicit == null
    {
      this.kind, this.isChild, this.cursorID, this.parent := kind, isChild, cursorID, parent;
      closed, moreRows, implicit := false, isChild, null;
    }
  }

  class Conn {
    const server: Server
    var cursorsToClose: seq<nat>
    ghost var statements: set<Statement>
    ghost var given: set<Statement>         // those the user has been handed
    ghost var holder: map<nat, Statement>   // which statement holds a cursor
    ghost var lost: set<nat>                // cursors the queue forgot without telling the server
    ghost var dropped: set<nat>             // cursors a statement forgot because the server named another

    constructor (server: Server)
      requires server.open == {} && !server.swapped
      ensures Valid() && this.server == server && statements == given == {} && cursorsToClose == [] && lost == dropped == {}
    {
      this.server := server;
      cursorsToClose, statements, given, holder, lost, dropped := [], {}, {}, map[], {}, {};
    }

    /** A statement and the map agree on its cursor. One the user does not have is the implicit result of one he has. */
    ghost predicate Agrees(s: Statement)
      reads `holder, `statements, `given, s, statements
    {
      (s.cursorID != 0 ==> s.cursorID in holder && holder[s.cursorID] == s)
      && (s.closed ==> s.cursorID == 0)
      && (s.implicit != null ==> s.implicit in statements && s.implicit != s)
      && (s.cursorID != 0 && s !in given ==> s.parent in given && s.parent in statements && s.parent.implicit == s)
    }

    /**
      * The cursors open at the server are those held by statements, those queued, those lost or dropped, and those the
      * response being read has opened but not yet handed over. No cursor is in two of these places, held by two
      * statements or queued twice, and no closed statement holds one.
      */
    ghost predicate ValidWith(loose: set<nat>)
      reads this, statements, server
    {
      given <= statements
      && (forall s :: s in statements ==> Agrees(s))
      && (forall id :: id in holder ==> id != 0 && holder[id] in statements && holder[id].cursorID == id)
      && Distinct(cursorsToClose) && 0 !in cursorsToClose && 0 !in loose
      && AsSet(cursorsToClose) !! holder.Keys && lost + dropped !! holder.Keys + AsSet(cursorsToClose) && lost !! dropped
      && loose !! holder.Keys + AsSet(cursorsToClose) + lost + dropped
      && server.open == holder.Keys + AsSet(cursorsToClose) + lost + dropped + loose
      && (dropped != {} ==> server.swapped)
    }

    /** Between requests. */
    ghost predicate Valid()
      reads this, statements, server
    {
      ValidWith({}) && (server.swapped ==> dropped != {})
    }

    method Prepare(kind: Kind) returns (s: Statement)
      requires Valid()
      modifies this
      ensures Valid() && fresh(s) && statements == old(statements) + {s} && given == old(given) + {s} && lost == old(lost)
      ensures s.cursorID == 0 && !s.closed && s.implicit == null && cursorsToClose == old(cursorsToClose)
    {
      s := new Statement(kind, false, 0, null);
      statements, given := statements + {s}, given + {s};
    }

    /** ImplicitResult: the user takes the implicit result of a statement, which stays attached to it. */
    method Take(s: Statement) returns (child: Statement?)
      requires Valid() && s in given
      modifies this`given
      ensures Valid() && child == s.implicit && given == old(given) + (if child == null then {} else {child})
    {
      child := s.implicit;
      if child != null {
        assert Agrees(s);
        given := given + {child};
      }
    }

    /** addCursorToClose and forgetting the id, which Close and clearCursor both do. */
    method Release(s: Statement, ghost loose: set<nat>)
      requires ValidWith(loose) && s in statements
      modifies this`cursorsToClose, this`holder, s`cursorID
      ensures ValidWith(loose) && s.cursorID == 0
      ensures cursorsToClose == old(cursorsToClose) + if old(s.cursorID) != 0 then [old(s.cursorID)] else []
      ensures holder == old(holder) - {old(s.cursorID)}
    {
      hide Distinct, AsSet;
      assert Agrees(s);
      if s.cursorID != 0 {
        OneMore(cursorsToClose, s.cursorID);
        cursorsToClose := cursorsToClose + [s.cursorID];
      }
      label queued:
      holder := holder - {s.cursorID};
      s.cursorID := 0;
      forall t | t in statements
        ensures Agrees(t)
      {
        assert old@queued(Agrees(t));
      }
    }

    /** Statement.Close: idempotent, and deferred to the next round trip. */
    method CloseStatement(s: Statement, ghost loose: set<nat>)
      requires ValidWith(loose) && s in statements
      modifies this`cursorsToClose, this`holder, s`cursorID, s`closed
      ensures ValidWith(loose) && s.closed && s.cursorID == 0
      ensures cursorsToClose == old(cursorsToClose) + if old(s.cursorID) != 0 then [old(s.cursorID)] else []
      ensures holder == old(holder) - {old(s.cursorID)}
    {
      if s.closed {
        return;
      }
      Release(s, loose);
      s.closed := true;
    }

    /** A statement of the user's is closed; its implicit result is not. */
    method CloseGiven(s: Statement)
      requires Valid() && s in given
      modifies this`cursorsToClose, this`holder, s`cursorID, s`closed
      ensures Valid() && s.closed
      ensures s.implicit != null ==> s.implicit in statements && s.implicit.cursorID == old(s.implicit.cursorID)
    {
      assert Agrees(s);
      CloseStatement(s, {});
    }

    /** What the server will answer to the next request for a statement. */
    ghost function NextReply(s: Statement): Reply
      reads this, s, server
    {
      Answer(server.script, server.open - AsSet(cursorsToClose), s.cursorID)
    }

    lemma CursorIsOpen(s: Statement)
      requires ValidWith({}) && s in statements && s.cursorID != 0
      ensures s.cursorID in holder && s.cursorID in server.open && s.cursorID !in cursorsToClose
    {
      assert Agrees(s);
      assert s.cursorID !in AsSet(cursorsToClose);
    }

    /** The request: the queue goes along and is emptied. */
    method Send(s: Statement) returns (r: Reply)
      requires Valid() && s in given
      modifies this`cursorsToClose, server
      ensures r == old(NextReply(s)) && s in statements
      ensures ValidWith(Opened(s, r)) && cursorsToClose == [] && |server.script| <= |old(server.script)|
      ensures Distinct(r.implicit) && r.cursorID !in r.implicit
      ensures r.code != 0 || r.needsDefine ==> |server.script| < |old(server.script)|
      ensures server.swapped <==> dropped != {} || Swaps(r, s.cursorID)
      ensures server.swapped == (old(server.swapped) || Swaps(r, s.cursorID)) && server.requests == old(server.requests) + 1
    {
      hide Distinct, Agrees;
      if s.cursorID != 0 {
        CursorIsOpen(s);
      }
      var close := cursorsToClose;
      cursorsToClose := [];
      r := server.Handle(close, s.cursorID);
      NoneTwice();
      assert server.open == holder.Keys + lost + dropped + Opened(s, r);
    }

    /** The statement's own cursor, if a reply has opened it. */
    ghost function OpenedOwn(s: Statement, r: Reply): set<nat>
      reads s
    {
      if r.cursorID == 0 || r.cursorID == s.cursorID then {} else {r.cursorID}
    }

    /** What a reply has opened: the implicit results, and the statement's cursor if it had none. */
    ghost function Opened(s: Statement, r: Reply): set<nat>
      reads s
    {
      AsSet(r.implicit) + OpenedOwn(s, r)
    }

    /** One implicit result: the first becomes the statement's, any further one is closed. */
    method TakeImplicit(s: Statement, id: nat, ghost loose: set<nat>)
      requires ValidWith(loose) && s in given && id in loose
      modifies this`cursorsToClose, this`holder, this`statements, s`implicit
      ensures ValidWith(loose - {id}) && old(statements) <= statements && fresh(statements - old(statements))
      ensures if old(s.implicit) == null then s.implicit != null && s.implicit != s && s.implicit.cursorID == id else s.implicit == old(s.implicit)
    {
      var child := new Statement(Query, true, id, s);
      if s.implicit == null {
        Adopt(s, child, loose);
      } else {
        CloseChild(child, loose);
      }
    }

    method Adopt(s: Statement, child: Statement, ghost loose: set<nat>)
      requires ValidWith(loose) && s in given && s.implicit == null && child !in statements
      requires child.cursorID in loose && !child.closed && child.implicit == null && child.parent == s
      modifies this`holder, this`statements, s`implicit
      ensures ValidWith(loose - {child.cursorID}) && statements == old(statements) + {child} && s.implicit == child
    {
      hide Distinct, AsSet;
      holder := holder[child.cursorID := child];
      statements := statements + {child};
      s.implicit := child;
    }

    /** Statement.Close on an implicit result nobody has seen. */
    method CloseChild(child: Statement, ghost loose: set<nat>)
      requires ValidWith(loose) && child !in statements && child.cursorID in loose && !child.closed && child.implicit == null
      modifies this`cursorsToClose, this`statements, child`closed, child`cursorID
      ensures ValidWith(loose - {old(child.cursorID)}) && statements == old(statements) + {child}
    {
      cursorsToClose := cursorsToClose + [child.cursorID];
      child.closed, child.cursorID := true, 0;
      statements := statements + {child};
    }

    method TakeAllImplicit(s: Statement, r: Reply)
      requires ValidWith(Opened(s, r)) && s in given && Distinct(r.implicit) && r.cursorID !in r.implicit
      modifies this`cursorsToClose, this`holder, this`statements, s`implicit
      ensures ValidWith(OpenedOwn(s, r)) && s.cursorID == old(s.cursorID) && old(statements) <= statements && fresh(statements - old(statements))
      ensures old(s.implicit) == null && r.implicit != [] ==>
                s.implicit != null && s.implicit != s && s.implicit.cursorID == r.implicit[0]
    {
      hide ValidWith, Agrees;
      ghost var own := OpenedOwn(s, r);
      var i := 0;
      assert r.implicit[0..] == r.implicit && Opened(s, r) == own + AsSet(r.implicit);
      while i < |r.implicit|
        invariant 0 <= i <= |r.implicit| && own == OpenedOwn(s, r)
        invariant ValidWith(own + AsSet(r.implicit[i..]))
        invariant old(statements) <= statements && fresh(statements - old(statements))
        invariant if i == 0 then s.implicit == old(s.implicit) else
                    s.implicit != null && (old(s.implicit) == null ==> s.implicit != s && s.implicit.cursorID == r.implicit[0])
      {
        ghost var loose := own + AsSet(r.implicit[i..]);
        assert r.implicit[i..] == [r.implicit[i]] + r.implicit[i + 1..];
        TakeImplicit(s, r.implicit[i], loose);
        assert loose - {r.implicit[i]} == own + AsSet(r.implicit[i + 1..]);
        i := i + 1;
      }
      assert own + AsSet(r.implicit[i..]) == own;
    }

    /** The statement forgets its cursor, which stays open. */
    method Drop(s: Statement, ghost loose: set<nat>)
      requires s in given && ValidWith(loose) && s.cursorID != 0 && server.swapped
      modifies this`holder, this`dropped, s`cursorID
      ensures ValidWith(loose) && s.cursorID == 0 && dropped == old(dropped) + {old(s.cursorID)}
    {
      hide Distinct, AsSet;
      dropped := dropped + {s.cursorID};
      holder := holder - {s.cursorID};
      s.cursorID := 0;
    }

    method Assign(s: Statement, id: nat)
      requires s in given && !s.closed && s.cursorID == 0 && ValidWith({id})
      modifies this`holder, s`cursorID
      ensures ValidWith({}) && s.cursorID == id
    {
      hide Distinct, AsSet;
      holder := holder[id := s];
      s.cursorID := id;
    }

    /** The statement's cursor, if the response names one. One it had before is forgotten. */
    method TakeCursor(s: Statement, r: Reply)
      requires s in given && !s.closed && ValidWith(OpenedOwn(s, r))
      requires server.swapped <==> dropped != {} || Swaps(r, s.cursorID)
      modifies this`holder, this`dropped, s`cursorID
      ensures Valid() && s.cursorID == if r.cursorID != 0 then r.cursorID else old(s.cursorID)
      ensures dropped == old(dropped) + if Swaps(r, old(s.cursorID)) then {old(s.cursorID)} else {}
    {
      hide ValidWith;
      if r.cursorID != 0 && r.cursorID != s.cursorID {
        if s.cursorID != 0 {
          Drop(s, {r.cursorID});
        }
        Assign(s, r.cursorID);
      }
    }

    method ExpectRows(s: Statement, more: bool)
      requires Valid() && s in given
      modifies s`moreRows
      ensures Valid() && NextReply(s) == old(NextReply(s)) && s.moreRows == more
    {
      hide Distinct, AsSet;
      s.moreRows := more;
    }

    method ClearCursor(s: Statement)
      requires Valid() && s in given
      modifies this`cursorsToClose, this`holder, s`cursorID
      ensures Valid() && s.cursorID == 0
    {
      hide Distinct, AsSet, Agrees;
      Release(s, {});
    }

    /** processErrorInfo: the statement's cursor, then what the error code does to it. */
    method ProcessError(s: Statement, r: Reply, inFetch: bool) returns (retry: bool, code: nat)
      requires s in given && !s.closed
      requires ValidWith(OpenedOwn(s, r)) && (server.swapped <==> dropped != {} || Swaps(r, s.cursorID))
      modifies this`cursorsToClose, this`holder, this`dropped, s`cursorID, s`moreRows
      ensures Valid() && !s.closed
      ensures code == if r.code == NO_DATA_FOUND && inFetch then 0 else r.code
      ensures s.moreRows == if r.code == NO_DATA_FOUND && inFetch then false else old(s.moreRows)
      ensures retry <==> s.kind == Query && (r.code == VAR_NOT_IN_SELECT_LIST || r.code == INCONSISTENT_DATA_TYPES)
      ensures retry ==> s.cursorID == 0
      ensures code == 0 || code == ARRAY_DML_ERRORS || code in INTEGRITY_ERRORS ==>
                s.cursorID == if r.cursorID != 0 then r.cursorID else old(s.cursorID)
      ensures code != 0 && code != ARRAY_DML_ERRORS && code !in INTEGRITY_ERRORS ==> s.cursorID == 0
    {
      hide Distinct, AsSet, ValidWith, Agrees;
      TakeCursor(s, r);
      retry, code := false, r.code;
      if code == NO_DATA_FOUND && inFetch {
        ExpectRows(s, false);
        code := 0;
      } else if code == ARRAY_DML_ERRORS {
      } else if s.kind == Query && (code == VAR_NOT_IN_SELECT_LIST || code == INCONSISTENT_DATA_TYPES) {
        retry := true;
        ClearCursor(s);
      } else if code != 0 && s.cursorID != 0 && code !in INTEGRITY_ERRORS {
        ClearCursor(s);
      }
    }

    /** processMessageLocked, and once more for each retry the server provokes. */
    method ProcessMessage(s: Statement, inFetch: bool) returns (code: nat, needsDefine: bool)
      requires Valid() && s in given && !s.closed
      modifies this, statements, server
      ensures Valid() && !s.closed && lost == old(lost) && given == old(given) && old(statements) <= statements && fresh(statements - old(statements))
      ensures |server.script| <= |old(server.script)| && (needsDefine ==> |server.script| < |old(server.script)|)
      ensures var r := old(NextReply(s));
              r.code == 0 || (r.code == NO_DATA_FOUND && inFetch) ==>
                code == 0 && needsDefine == r.needsDefine && s.moreRows == (old(s.moreRows) && r.code == 0)
                && server.requests == old(server.requests) + 1
      ensures server.requests > old(server.requests)
      ensures var r := old(NextReply(s));
              r.code == 0 ==> code == 0 && needsDefine == r.needsDefine
                              && server.swapped == (old(server.swapped) || Swaps(r, old(s.cursorID)))
                              && (old(s.implicit) == null && r.implicit != [] ==> s.implicit != null && s.implicit.cursorID == r.implicit[0])
      decreases |server.script|
    {
      hide Distinct, NextReply, AsSet, Opened, OpenedOwn, ValidWith;
      var r := Send(s);
      TakeAllImplicit(s, r);
      var retry;
      retry, code := ProcessError(s, r, inFetch);
      needsDefine := r.needsDefine;
      if retry {
        code, needsDefine := ProcessMessage(s, inFetch);
      }
    }

    /**
      * Execute. `encodes` is whether every bind value can be encoded; if one cannot, the request is given up
      * after the queue has gone into it.
      */
    method Execute(s: Statement, parseOnly: bool, encodes: bool) returns (ok: bool)
      requires Valid() && s in given
      modifies this, statements, server
      ensures Valid() && given == old(given) && old(statements) <= statements && fresh(statements - old(statements))
      ensures encodes || old(s.closed) ==> lost == old(lost)
      ensures var r := old(NextReply(s));
              encodes && !old(s.closed) && old(s.implicit) == null && r.code == 0 && !r.needsDefine && r.implicit != [] ==>
                s.implicit != null && s.implicit.cursorID == r.implicit[0]
                && server.swapped == (old(server.swapped) || Swaps(r, old(s.cursorID)))
      ensures server.requests > old(server.requests) <==> encodes && !old(s.closed)
      ensures server.requests >= old(server.requests)
      ensures !encodes && !old(s.closed) ==>
                (lost == old(lost) <==> old(cursorsToClose) == [] && (old(s.implicit) == null || old(s.implicit.cursorID) == 0))
    {
      hide NextReply, Agrees, AsSet, Valid;
      if s.closed {
        return false;
      }
      DropImplicit(s);
      var inFetch := s.kind == Query && !parseOnly;
      if inFetch {
        ExpectRows(s, true);
      }
      if !encodes {
        Forget();
        return false;
      }
      var code, needsDefine := ProcessMessage(s, inFetch);
      if code == 0 && needsDefine {
        if inFetch {
          ExpectRows(s, true);
        }
        code, needsDefine := ProcessMessage(s, inFetch);
      }
      ok := code == 0;
    }

    /** The implicit result of an earlier execution is closed. */
    method DropImplicit(s: Statement)
      requires Valid() && s in given
      modifies this`cursorsToClose, this`holder, statements
      ensures Valid() && s in statements && s.implicit == null && s.closed == old(s.closed) && s.cursorID == old(s.cursorID)
      ensures old(s.implicit) == null ==> NextReply(s) == old(NextReply(s))
      ensures cursorsToClose == old(cursorsToClose) +
                if old(s.implicit) == null || old(s.implicit.cursorID) == 0 then [] else [old(s.implicit.cursorID)]
    {
      if s.implicit != null {
        assert Agrees(s);
        CloseStatement(s.implicit, {});
        s.implicit := null;
      }
    }

    /** writePiggybacks empties the queue into a request of which nothing is sent: exactly the queued cursors are lost. */
    method Forget()
      requires Valid()
      modifies this`cursorsToClose, this`lost
      ensures Valid() && cursorsToClose == [] && lost == old(lost) + AsSet(old(cursorsToClose))
      ensures lost == old(lost) <==> old(cursorsToClose) == []
    {
      lost := lost + AsSet(cursorsToClose);
      if cursorsToClose != [] {
        assert cursorsToClose[0] in AsSet(cursorsToClose);
      }
      cursorsToClose := [];
    }

    /** Fetch asks the server exactly if rows may come and there is a cursor; ORA-01403 says that no more will. */
    method Fetch(s: Statement) returns (ok: bool)
      requires Valid() && s in given
      modifies this, statements, server
      ensures Valid() && given == old(given) && lost == old(lost) && old(statements) <= statements && fresh(statements - old(statements))
      ensures var asks := !old(s.closed) && old(s.moreRows) && old(s.cursorID) != 0;
              if asks then server.requests > old(server.requests)
              else ok == (!old(s.closed) && !old(s.moreRows)) && server.requests == old(server.requests)
                   && server.script == old(server.script) && cursorsToClose == old(cursorsToClose)
                   && s.cursorID == old(s.cursorID) && s.moreRows == old(s.moreRows)
      ensures var r := old(NextReply(s));
              !old(s.closed) && old(s.moreRows) && old(s.cursorID) != 0 && (r.code == 0 || r.code == 1403)
              && !(s.isChild && r.needsDefine) ==>
                ok && s.moreRows == (r.code == 0) && server.requests == old(server.requests) + 1
    {
      if s.closed {
        return false;
      }
      if !s.moreRows {
        return true;
      }
      if s.cursorID == 0 {
        return false;
      }
      var code, needsDefine := ProcessMessage(s, true);
      if s.isChild && code == 0 && needsDefine {
        ExpectRows(s, true);
        code, needsDefine := ProcessMessage(s, true);
      }
      ok := code == 0;
    }

    /** Commit, rollback or ping: the queue goes along. */
    method RoundTrip()
      requires Valid()
      modifies this`cursorsToClose, server
      ensures Valid() && cursorsToClose == [] && server.swapped == old(server.swapped) && server.requests == old(server.requests) + 1
      ensures server.open == holder.Keys + lost + dropped
    {
      var close := cursorsToClose;
      cursorsToClose := [];
      server.HandleSimple(close);
    }
  }

  // ---- whole runs ----

  /** What a user of the connection may do; statements are named by their position in the list of those made so far. */
  datatype Op =
    | DoPrepare(kind: Kind)
    | DoExecute(i: nat, parseOnly: bool, encodes: bool)
    | DoFetch(i: nat)
    | DoClose(i: nat)
    | DoTakeImplicit(i: nat)
    | DoRoundTrip

  /** These are the statements the user has. */
  ghost predicate AreGiven(c: Conn, made: seq<Statement>)
    reads c
  {
    (forall s :: s in made ==> s in c.given) && forall s :: s in c.given ==> s in made
  }

  /** One step of a user. */
  method Act(c: Conn, op: Op, made: seq<Statement>) returns (now: seq<Statement>)
    requires c.Valid() && AreGiven(c, made)
    modifies c, c.statements, c.server
    ensures c.Valid() && AreGiven(c, now) && old(c.statements) <= c.statements && fresh(c.statements - old(c.statements))
    ensures (op.DoExecute? ==> op.encodes) ==> c.lost == old(c.lost)
  {
    hide Distinct, AsSet;
    now := made;
    match op {
      case DoPrepare(kind) =>
        var s := c.Prepare(kind);
        now := made + [s];
      case DoExecute(i, parseOnly, encodes) =>
        if i < |made| {
          var ok := c.Execute(made[i], parseOnly, encodes);
        }
      case DoFetch(i) =>
        if i < |made| {
          var ok := c.Fetch(made[i]);
        }
      case DoClose(i) =>
        if i < |made| {
          assert made[i] in c.given;
          c.CloseStatement(made[i], {});
        }
      case DoTakeImplicit(i) =>
        if i < |made| {
          var child := c.Take(made[i]);
          if child != null {
            now := made + [child];
          }
        }
      case DoRoundTrip =>
        c.RoundTrip();
    }
  }

  /**
    * After any run in which no bind value fails to encode, against a server that answers by any script, the cursors
    * open there are exactly those held by statements and those queued, unless the server named another cursor for a
    * statement that had one. On the way it was never asked to close what was not open, to close a cursor twice, or
    * to use a closed one.
    */
  method Run(ops: seq<Op>, script: seq<Reply>) returns (c: Conn, server: Server, made: seq<Statement>)
    ensures c.Valid() && c.server == server && fresh(c) && fresh(server) && fresh(c.statements)
    ensures AreGiven(c, made)
    ensures (forall k :: 0 <= k < |ops| && ops[k].DoExecute? ==> ops[k].encodes) ==>
              c.lost == {} && (!server.swapped <==> server.open == c.holder.Keys + AsSet(c.cursorsToClose))
  {
    hide Distinct, AsSet;
    server := new Server(script);
    c := new Conn(server);
    made := [];
    var k := 0;
    while k < |ops|
      invariant 0 <= k <= |ops| && c.Valid() && c.server == server && fresh(c) && fresh(server)
      invariant AreGiven(c, made) && fresh(c.statements)
      invariant (forall j :: 0 <= j < k && ops[j].DoExecute? ==> ops[j].encodes) ==> c.lost == {}
    {
      made := Act(c, ops[k], made);
      k := k + 1;
    }
  }

  /** Its first implicit result still holds a cursor. */
  ghost predicate Holds(s: Statement)
    reads s, s.implicit
  {
    s.implicit != null && s.implicit.cursorID != 0
  }

  /**
    * The user closes every statement he was given, and there is one more round trip. Then nothing is open at the
    * server, exactly if no request was given up with cursors in it, the server named no other cursor for a statement
    * that had one, and no closed statement still has an implicit result that holds one: closing a statement does not
    * close its implicit result, and nobody else has it.
    */
  method CloseAll(c: Conn, made: seq<Statement>)
    requires c.Valid() && AreGiven(c, made)
    modifies c, c.statements, c.server
    ensures c.Valid() && c.cursorsToClose == [] && c.lost == old(c.lost) && c.server.swapped == old(c.server.swapped)
    ensures forall s :: s in made ==> s.closed && s.implicit == old(s.implicit)
    ensures c.server.open == {} <==> c.lost == {} && !c.server.swapped && forall s :: s in made ==> !Holds(s)
  {
    hide Distinct, AsSet;
    var i := 0;
    while i < |made|
      invariant 0 <= i <= |made| && c.Valid() && c.given == old(c.given) && c.statements == old(c.statements) && c.lost == old(c.lost) && c.dropped == old(c.dropped)
      invariant forall j :: 0 <= j < i ==> made[j].closed
      invariant forall s :: s in c.statements ==> s.implicit == old(s.implicit)
    {
      c.CloseStatement(made[i], {});
      i := i + 1;
    }
    c.RoundTrip();
    forall s | s in made
      ensures s.closed && c.Agrees(s) && s in c.statements
    {
    }
    if c.holder.Keys != {} {
      var id :| id in c.holder;
      var s := c.holder[id];
      assert c.Agrees(s) && Holds(s.parent);
    }
    forall s | s in made && Holds(s)
      ensures s.implicit.cursorID in c.holder
    {
      assert c.Agrees(s.implicit);
    }
  }

  /** A block that returns an implicit result nobody takes: after its statement is closed, the cursor stays open for good. */
  method OrphanedImplicitResult(id: nat) returns (c: Conn)
    requires id != 0
    ensures c.Valid() && c.cursorsToClose == [] && c.lost == {} && !c.server.swapped && (forall s :: s in c.given ==> s.closed) && id in c.server.open
  {
    hide Conn.ValidWith, Conn.Agrees, Conn.NextReply, AsSet, Distinct;
    var server := new Server([Reply([id], 0, 0, false)]);
    c := new Conn(server);
    var s := c.Prepare(Other);
    FirstReply(c, s, id);
    var ok := c.Execute(s, false, true);
    c.CloseGiven(s);
    c.RoundTrip();
    StaysOpen(c, s);
  }

  lemma FirstReply(c: Conn, s: Statement, id: nat)
    requires id != 0 && c.server.open == {} && c.server.script == [Reply([id], 0, 0, false)]
    ensures c.NextReply(s) == Reply([id], 0, 0, false)
  {
  }

  lemma StaysOpen(c: Conn, s: Statement)
    requires c.Valid() && s.implicit != null && s.implicit in c.statements && s.implicit.cursorID != 0
    ensures s.implicit.cursorID in c.server.open
  {
    assert c.Agrees(s.implicit);
  }
}
