/** The user table of server/db.c: the records of the users named in the
    user file (`users`) and of those no longer named there (`inactive`),
    each with the pid and pipe of the user's running process. `db_reload`
    re-reads the file, here given as its lines, and moves the records
    between the two lists. */
module Db {
  import opened Prelude
  import opened CInt

  /** At most this many characters of a line make a login. */
  const LOGIN_LEN: int := 30

  /** `struct user`. The login never changes once the record exists; a
      pid of 0 and no pipe mean no running process. The pipe is the
      socket's handle. */
  class User {
    const login: seq<char>
    var pid: int
    var pipe: Option<nat>

    constructor (login: seq<char>)
      ensures this.login == login && pid == 0 && pipe == None
    {
      this.login, pid, pipe := login, 0, None;
    }
  }

  /** The logins of the records, in list order. */
  function Logins(us: seq<User>): (r: seq<seq<char>>)
    ensures |r| == |us| && forall i :: 0 <= i < |us| ==> r[i] == us[i].login
  {
    seq(|us|, i requires 0 <= i < |us| => us[i].login)
  }

  /** The pids of the records, in list order. */
  function Pids(us: seq<User>): (r: seq<int>)
    reads us
    ensures |r| == |us| && forall i :: 0 <= i < |us| ==> r[i] == us[i].pid
  {
    seq(|us|, i reads us requires 0 <= i < |us| => us[i].pid)
  }

  /** No two records share a login. */
  predicate UniqueLogins(us: seq<User>) {
    forall i, j :: 0 <= i < j < |us| ==> us[i].login != us[j].login
  }

  // ---------------------------------------------------------------------
  // Reading a line

  /** `strip_nl`: a string ending in a newline loses it. */
  function StripNl(s: seq<char>): (r: (seq<char>, bool))
    ensures r.1 <==> |s| > 0 && s[|s| - 1] == '\n'
    ensures r.1 ==> r.0 + "\n" == s
    ensures !r.1 ==> r.0 == s
  {
    if |s| > 0 && s[|s| - 1] == '\n' then (s[..|s| - 1], true) else (s, false)
  }

  /** A line of the user file: not empty, with no NUL, and a newline at
      most at its end. */
  predicate IsLine(line: seq<char>) {
    |line| > 0 && '\0' !in line && forall i :: 0 <= i < |line| - 1 ==> line[i] != '\n'
  }

  /** The login `db_reload` takes from a line: `fgets` reads at most
      `LOGIN_LEN` characters, `strip_nl` drops a newline among them, and
      the rest of the line is read and discarded. */
  function LoginOf(line: seq<char>): seq<char> {
    StripNl(line[..if |line| < LOGIN_LEN then |line| else LOGIN_LEN]).0
  }

  /** The logins the lines of a file give, in file order. */
  function FileLogins(lines: seq<seq<char>>): (r: seq<seq<char>>)
    ensures |r| == |lines| && forall i :: 0 <= i < |lines| ==> r[i] == LoginOf(lines[i])
  {
    seq(|lines|, i requires 0 <= i < |lines| => LoginOf(lines[i]))
  }

  /** The login of a line is the line without its newline, cut to
      `LOGIN_LEN` characters. */
  lemma LoginOfLine(text: seq<char>, nl: bool)
    requires IsLine(text + if nl then "\n" else "") && '\n' !in text
    ensures LoginOf(text + if nl then "\n" else "") == text[..if |text| < LOGIN_LEN then |text| else LOGIN_LEN]
  {
    var line := text + if nl then "\n" else "";
    if |text| >= LOGIN_LEN {
      assert line[..LOGIN_LEN] == text[..LOGIN_LEN];
      assert text[LOGIN_LEN - 1] in text;
    } else if nl {
      assert line[..|line|] == line;
    } else {
      assert line[..|line|] == text;
      assert |text| > 0 ==> text[|text| - 1] in text;
    }
  }

  // ---------------------------------------------------------------------
  // The outcome of a reload

  /** The logins of `ls` at their first occurrence, in order. */
  function Dedup(ls: seq<seq<char>>): (r: seq<seq<char>>)
  {
    if ls == [] then []
    else
      var r := Dedup(ls[..|ls| - 1]);
      if ls[|ls| - 1] in r then r else r + [ls[|ls| - 1]]
  }

  /** `Dedup` keeps every login once and no other. */
  lemma {:induction false} DedupSpec(ls: seq<seq<char>>)
    ensures forall x :: x in Dedup(ls) <==> x in ls
    ensures forall i, j :: 0 <= i < j < |Dedup(ls)| ==> Dedup(ls)[i] != Dedup(ls)[j]
  {
    if ls != [] {
      var init := ls[..|ls| - 1];
      DedupSpec(init);
      assert ls == init + [ls[|ls| - 1]];
    }
  }

  /** The records of `pool` whose login is not among `done`, in order. */
  function Remaining(pool: seq<User>, done: seq<seq<char>>): (r: seq<User>)
  {
    if pool == [] then []
    else
      var last := pool[|pool| - 1];
      Remaining(pool[..|pool| - 1], done) + if last.login in done then [] else [last]
  }

  /** The records that remain are those of `pool` whose login is not
      done, and they keep their logins apart. */
  lemma RemainingSpec(pool: seq<User>, done: seq<seq<char>>)
    ensures forall k :: 0 <= k < |Remaining(pool, done)| ==>
      Remaining(pool, done)[k] in pool && Remaining(pool, done)[k].login !in done
    ensures forall k :: 0 <= k < |pool| ==> (pool[k] in Remaining(pool, done) <==> pool[k].login !in done)
    ensures UniqueLogins(pool) ==> UniqueLogins(Remaining(pool, done))
  {
    var r := Remaining(pool, done);
    forall k | 0 <= k < |r|
      ensures r[k] in pool && r[k].login !in done
    {
      RemainingMember(pool, done, r[k]);
    }
    forall k | 0 <= k < |pool|
      ensures pool[k] in r <==> pool[k].login !in done
    {
      RemainingMember(pool, done, pool[k]);
    }
    if UniqueLogins(pool) {
      RemainingUnique(pool, done);
    }
  }

  lemma {:induction false} RemainingMember(pool: seq<User>, done: seq<seq<char>>, u: User)
    ensures u in Remaining(pool, done) <==> u in pool && u.login !in done
  {
    if pool != [] {
      var init := pool[..|pool| - 1];
      RemainingMember(init, done, u);
      assert pool == init + [pool[|pool| - 1]];
    }
  }

  lemma {:induction false} RemainingUnique(pool: seq<User>, done: seq<seq<char>>)
    requires UniqueLogins(pool)
    ensures UniqueLogins(Remaining(pool, done))
  {
    if pool != [] {
      var init := pool[..|pool| - 1];
      assert UniqueLogins(init);
      RemainingUnique(init, done);
      var r := Remaining(pool, done);
      var last := pool[|pool| - 1];
      var rest := Remaining(init, done);
      forall i, j | 0 <= i < j < |r|
        ensures r[i].login != r[j].login
      {
        assert r[i] == rest[i];
        RemainingMember(init, done, rest[i]);
        if j == |rest| {
          var a :| 0 <= a < |init| && init[a] == r[i];
          assert pool[a] == r[i] && r[j] == last;
        } else {
          assert r[j] == rest[j];
        }
      }
    }
  }

  /** With nothing done, every record remains. */
  lemma {:induction false} RemainingNone(pool: seq<User>)
    ensures Remaining(pool, []) == pool
  {
    if pool != [] {
      RemainingNone(pool[..|pool| - 1]);
    }
  }

  /** One more login done removes its records from what remains. */
  lemma {:induction false} RemainingStep(pool: seq<User>, done: seq<seq<char>>, l: seq<char>)
    ensures Remaining(pool, done + [l]) == Remaining(Remaining(pool, done), [l])
  {
    if pool != [] {
      var init := pool[..|pool| - 1];
      RemainingStep(init, done, l);
      var last := pool[|pool| - 1];
      var r := Remaining(init, done);
      assert last.login in done + [l] <==> last.login in done || last.login == l;
      assert last.login in [l] <==> last.login == l;
      var tail := if last.login == l then [] else [last];
      if last.login in done {
        assert Remaining(pool, done) == r;
        assert Remaining(pool, done + [l]) == Remaining(init, done + [l]);
      } else {
        var rl := r + [last];
        assert Remaining(pool, done) == rl;
        assert rl[..|rl| - 1] == r && rl[|rl| - 1] == last;
        assert Remaining(rl, [l]) == Remaining(r, [l]) + tail;
        assert Remaining(pool, done + [l]) == Remaining(init, done + [l]) + tail;
      }
    }
  }

  /** Removing the one record with login `l`, or none when no record has
      it. */
  lemma {:induction false} RemoveLogin(s: seq<User>, l: seq<char>, k: nat)
    requires UniqueLogins(s) && k <= |s| && (forall i :: 0 <= i < k ==> s[i].login != l) && (k < |s| ==> s[k].login == l)
    ensures Remaining(s, [l]) == if k < |s| then s[..k] + s[k + 1..] else s
  {
    if s != [] {
      var init := s[..|s| - 1];
      var last := s[|s| - 1];
      assert UniqueLogins(init);
      assert last.login in [l] <==> last.login == l;
      if k == |s| {
        RemoveLogin(init, l, |init|);
        assert init + [last] == s;
      } else if k == |s| - 1 {
        RemoveLogin(init, l, |init|);
        assert s[..k] + s[k + 1..] == init;
      } else {
        assert last.login != l;
        RemoveLogin(init, l, k);
        assert s[..k] + s[k + 1..] == init[..k] + init[k + 1..] + [last];
      }
    }
  }

  /** The lists `us` (active) and `ina` (inactive) after reading the
      logins `done` with the records `pool` to start from: the active
      records carry those logins, each once, in the order of their first
      occurrence; the records of `pool` not named are inactive, in their
      old order; a named record of `pool` is active again, and an active
      record not from `pool` is new, with no process. */
  predicate Reconciles(us: seq<User>, ina: seq<User>, pool: seq<User>, done: seq<seq<char>>)
    reads us
  {
    && UniqueLogins(pool)
    && Logins(us) == Dedup(done)
    && ina == Remaining(pool, done)
    && (forall u :: u in us && u !in pool ==> u.pid == 0 && u.pipe == None && u.login !in Logins(pool))
    && (forall u :: u in pool && u.login in done ==> u in us)
  }

  /** An inactive record whose login is read is moved to the end of the
      active list. */
  lemma StepBack(us: seq<User>, ina: seq<User>, pool: seq<User>, done: seq<seq<char>>, k: nat)
    requires Reconciles(us, ina, pool, done) && k < |ina|
    ensures ina[k] in pool
    ensures Reconciles(us + [ina[k]], ina[..k] + ina[k + 1..], pool, done + [ina[k].login])
  {
    var u, l := ina[k], ina[k].login;
    BackInactive(ina, pool, done, k);
    DedupStep(done, l);
    assert Logins(us + [u]) == Logins(us) + [l];
    forall v | v in pool && v.login in done + [l]
      ensures v in us + [u]
    {
      if v.login !in done {
        UniqueMember(pool, u, v);
      }
    }
  }

  /** The inactive record at `k` is a record of `pool` whose login is not
      done yet, and doing it removes just that record. */
  lemma BackInactive(ina: seq<User>, pool: seq<User>, done: seq<seq<char>>, k: nat)
    requires UniqueLogins(pool) && ina == Remaining(pool, done) && k < |ina|
    ensures ina[k] in pool && ina[k].login !in done
    ensures Remaining(pool, done + [ina[k].login]) == ina[..k] + ina[k + 1..]
  {
    var l := ina[k].login;
    RemainingSpec(pool, done);
    forall i | 0 <= i < k
      ensures ina[i].login != l
    {
    }
    RemoveLogin(ina, l, k);
    RemainingStep(pool, done, l);
  }

  /** Two records of a list with unique logins that share a login are
      the same record. */
  lemma UniqueMember(s: seq<User>, u: User, v: User)
    requires UniqueLogins(s) && u in s && v in s && u.login == v.login
    ensures u == v
  {
  }

  /** A login already active is skipped. */
  lemma StepDup(us: seq<User>, ina: seq<User>, pool: seq<User>, done: seq<seq<char>>, l: seq<char>)
    requires Reconciles(us, ina, pool, done) && l in Logins(us)
    ensures Reconciles(us, ina, pool, done + [l])
  {
    DedupSpec(done);
    DedupStep(done, l);
    RemainingSpec(pool, done);
    RemainingStep(pool, done, l);
    forall i | 0 <= i < |ina|
      ensures ina[i].login != l
    {
      assert ina[i] in ina;
    }
    RemoveLogin(ina, l, |ina|);
  }

  /** Any other login gets a new record at the end of the active list. */
  lemma StepNew(us: seq<User>, ina: seq<User>, pool: seq<User>, done: seq<seq<char>>, u: User)
    requires Reconciles(us, ina, pool, done) && u.pid == 0 && u.pipe == None
    requires u.login !in Logins(us) && u.login !in Logins(ina)
    ensures Reconciles(us + [u], ina, pool, done + [u.login])
  {
    var l := u.login;
    DedupSpec(done);
    DedupStep(done, l);
    RemainingSpec(pool, done);
    RemainingStep(pool, done, l);
    forall i | 0 <= i < |ina|
      ensures ina[i].login != l
    {
    }
    RemoveLogin(ina, l, |ina|);
    if l in Logins(pool) {
      assert false;
    }
    assert Logins(us + [u]) == Logins(us) + [l];
  }

  lemma {:induction false} RemainingAppend(a: seq<User>, b: seq<User>, done: seq<seq<char>>)
    ensures Remaining(a + b, done) == Remaining(a, done) + Remaining(b, done)
  {
    if b != [] {
      var init := b[..|b| - 1];
      RemainingAppend(a, init, done);
      assert (a + b)[..|a + b| - 1] == a + init;
    } else {
      assert a + b == a;
    }
  }

  /** Records whose logins are all done leave nothing; records none of
      whose logins is done all remain. */
  lemma {:induction false} RemainingExtremes(s: seq<User>, done: seq<seq<char>>)
    ensures (forall i :: 0 <= i < |s| ==> s[i].login in done) ==> Remaining(s, done) == []
    ensures (forall i :: 0 <= i < |s| ==> s[i].login !in done) ==> Remaining(s, done) == s
  {
    if s != [] {
      RemainingExtremes(s[..|s| - 1], done);
    }
  }

  /** Reading the same file twice changes nothing the second time: the
      active and the inactive records, and their order, stay as the first
      reload left them. */
  lemma ReloadIdempotent(us1: seq<User>, ina1: seq<User>, pool: seq<User>,
                         us2: seq<User>, ina2: seq<User>, done: seq<seq<char>>)
    requires Reconciles(us1, ina1, pool, done) && Reconciles(us2, ina2, ina1 + us1, done)
    ensures us2 == us1 && ina2 == ina1
  {
    RemainingSpec(pool, done);
    InactiveStays(us1, ina1, done);
    forall i | 0 <= i < |us2|
      ensures us2[i] in ina1 + us1 || us2[i].login !in Logins(ina1 + us1)
    {
      assert us2[i] in us2;
    }
    ActiveStays(us1, ina1, us2, done);
  }

  /** The records left inactive by a reload stay inactive when the same
      logins are read again, and the active ones do not join them. */
  lemma InactiveStays(us1: seq<User>, ina1: seq<User>, done: seq<seq<char>>)
    requires Logins(us1) == Dedup(done) && forall i :: 0 <= i < |ina1| ==> ina1[i].login !in done
    ensures Remaining(ina1 + us1, done) == ina1
  {
    DedupSpec(done);
    forall i | 0 <= i < |us1|
      ensures us1[i].login in done
    {
      assert Logins(us1)[i] in Dedup(done);
    }
    RemainingExtremes(ina1, done);
    RemainingExtremes(us1, done);
    RemainingAppend(ina1, us1, done);
  }

  /** A record with a login done is not among records none of whose
      logins is. */
  lemma NoneDone(s: seq<User>, done: seq<seq<char>>, u: User)
    requires (forall i :: 0 <= i < |s| ==> s[i].login !in done) && u.login in done
    ensures u !in s
  {
  }

  /** Reading the same logins again brings back the same active records,
      in the same order. */
  lemma ActiveStays(us1: seq<User>, ina1: seq<User>, us2: seq<User>, done: seq<seq<char>>)
    requires Logins(us1) == Dedup(done) && Logins(us2) == Dedup(done)
    requires forall i :: 0 <= i < |ina1| ==> ina1[i].login !in done
    requires forall i :: 0 <= i < |us2| ==> us2[i] in ina1 + us1 || us2[i].login !in Logins(ina1 + us1)
    ensures us2 == us1
  {
    DedupSpec(done);
    assert |us2| == |Logins(us2)| == |Logins(us1)| == |us1|;
    forall i | 0 <= i < |us1|
      ensures us1[i].login in done && us2[i].login == us1[i].login
    {
      assert Logins(us1)[i] in Dedup(done);
      assert Logins(us2)[i] == Logins(us1)[i];
    }
    assert UniqueLogins(us1) by {
      forall i, j | 0 <= i < j < |us1|
        ensures us1[i].login != us1[j].login
      {
        assert Logins(us1)[i] == Dedup(done)[i] && Logins(us1)[j] == Dedup(done)[j];
      }
    }
    forall i | 0 <= i < |us1|
      ensures us2[i] == us1[i]
    {
      SameActive(us1, ina1, done, us2[i], i);
    }
  }

  /** The record read for the `i`-th active login is the `i`-th active
      record. */
  lemma SameActive(us1: seq<User>, ina1: seq<User>, done: seq<seq<char>>, u: User, i: nat)
    requires UniqueLogins(us1) && i < |us1| && u.login == us1[i].login && u.login in done
    requires forall k :: 0 <= k < |ina1| ==> ina1[k].login !in done
    requires u in ina1 + us1 || u.login !in Logins(ina1 + us1)
    ensures u == us1[i]
  {
    var pool2 := ina1 + us1;
    assert Logins(pool2)[|ina1| + i] == u.login;
    NoneDone(ina1, done, u);
    assert u in us1;
    UniqueMember(us1, u, us1[i]);
  }

  // ---------------------------------------------------------------------
  // The table

  /** The calls the table makes on the worker processes' pipes: spawning
      a process for a login, and `socket_add`, `socket_ref`, `socket_del`
      and `socket_unref` on the pipe's socket (a record without a pipe
      passes a null socket). */
  datatype PipeEffect =
    | Spawn(login: seq<char>)
    | SocketAdd(fd: int, sock: nat)
    | SocketRef(sock: nat)
    | SocketDel(pipe: Option<nat>)
    | SocketUnref(pipe: Option<nat>)

  /** A started process's pipe descriptor becomes a managed socket, and
      the record holds one reference to it. */
  function StartEffects(pipefd: int, sock: nat): (r: seq<PipeEffect>)
    ensures |r| == 2 && r[0].SocketAdd? && r[0].fd == pipefd
    ensures forall e :: e in r ==> e.SocketAdd? || e.SocketRef?
    ensures forall e :: e in r && (e.SocketAdd? || e.SocketRef?) ==> e.sock == sock
  {
    [SocketAdd(pipefd, sock), SocketRef(sock)]
  }

  /** An ended process's pipe is deleted from the event loop and the
      record's reference dropped. */
  function EndEffects(pipe: Option<nat>): (r: seq<PipeEffect>)
    ensures |r| == 2 && r[0].SocketDel? && r[1].SocketUnref?
    ensures forall e :: e in r ==> (e.SocketDel? || e.SocketUnref?) && e.pipe == pipe
  {
    [SocketDel(pipe), SocketUnref(pipe)]
  }

  /** The socket effects of starting a process and of ending it, for the
      same pipe, pair up: each `socket_ref` is matched by one
      `socket_unref` of the same socket. */
  lemma StartEndBalanced(pipefd: int, sock: nat)
    ensures var s, e := StartEffects(pipefd, sock), EndEffects(Some(sock));
      |set x | x in s && x.SocketRef? :: x.sock| == |set x | x in e && x.SocketUnref? :: x.pipe.value| == 1
  {
    var s, e := StartEffects(pipefd, sock), EndEffects(Some(sock));
    assert (set x | x in s && x.SocketRef? :: x.sock) == {sock};
    assert (set x | x in e && x.SocketUnref? :: x.pipe.value) == {sock};
  }

  class Table {
    /** `users`: the records of the users named in the file. */
    var users: seq<User>
    /** `inactive`: the records of users the file no longer names. */
    var inactive: seq<User>
    /** What the table asked of the process and socket layers, in order. */
    var log: seq<PipeEffect>

    /** No login has two records. */
    predicate Valid()
      reads this
    {
      UniqueLogins(inactive + users)
    }

    constructor ()
      ensures Valid() && users == [] && inactive == [] && log == []
    {
      users, inactive, log := [], [], [];
    }

    /** The table after reading the logins `done` with the records
        `pool` to start from. */
    predicate Reconciled(pool: seq<User>, done: seq<seq<char>>)
      reads this, users
    {
      Reconciles(users, inactive, pool, done)
    }

    /** A reconciled table has one record per login, knows exactly the
        logins done, and keeps the unnamed records of `pool` inactive. */
    lemma ReconciledFacts(pool: seq<User>, done: seq<seq<char>>)
      requires Reconciled(pool, done)
      ensures Valid()
      ensures forall l :: l in Logins(users) <==> l in done
    {
      DedupSpec(done);
      RemainingSpec(pool, done);
      var all := inactive + users;
      var n := |inactive|;
      forall i, j | 0 <= i < j < |all|
        ensures all[i].login != all[j].login
      {
        if n <= i {
          assert Logins(users)[i - n] == all[i].login && Logins(users)[j - n] == all[j].login;
        } else if j >= n {
          assert Logins(users)[j - n] in done;
          assert all[i] == inactive[i] && inactive[i].login !in done;
        } else {
          assert all[i] == inactive[i] && all[j] == inactive[j];
        }
      }
    }

    /** `find_login_ptr` (and the search of `find_login`): the place of
        the first record with the login, or the end of the list. */
    static method FindLoginAt(list: seq<User>, login: seq<char>) returns (k: nat)
      ensures k == IndexOf(Logins(list), login)
    {
      k := 0;
      while k < |list| && list[k].login != login
        invariant k <= |list| && login !in Logins(list)[..k]
      {
        assert Logins(list)[..k + 1] == Logins(list)[..k] + [list[k].login];
        k := k + 1;
      }
      IndexOfUnique(Logins(list), login, k);
    }

    /** `find_login`: the first record with the login, if any. */
    static method FindLogin(list: seq<User>, login: seq<char>) returns (u: Option<User>)
      ensures u.Some? <==> login in Logins(list)
      ensures u.Some? ==> u.value == list[IndexOf(Logins(list), login)] && u.value.login == login
    {
      var k := FindLoginAt(list, login);
      u := if k < |list| then Some(list[k]) else None;
    }

    /** `find_pid`: the first record with the pid, if any. */
    static method FindPid(list: seq<User>, pid: int) returns (u: Option<User>)
      ensures u.Some? <==> pid in Pids(list)
      ensures u.Some? ==> u.value == list[IndexOf(Pids(list), pid)] && u.value.pid == pid
    {
      var k := 0;
      while k < |list| && list[k].pid != pid
        invariant k <= |list| && pid !in Pids(list)[..k]
      {
        assert Pids(list)[..k + 1] == Pids(list)[..k] + [list[k].pid];
        k := k + 1;
      }
      IndexOfUnique(Pids(list), pid, k);
      u := if k < |list| then Some(list[k]) else None;
    }

    /** Admit one login read from the file: an inactive record with it
        becomes active again at the end of the list; a login already
        active is a duplicate and skipped; any other login gets a new
        record with no process. */
    method Admit(ghost pool: seq<User>, ghost done: seq<seq<char>>, login: seq<char>)
      requires Reconciled(pool, done)
      modifies this`users, this`inactive
      ensures Reconciled(pool, done + [login])
      ensures forall u :: u in users ==> u in old(users) || u in pool || fresh(u)
    {
      var k := FindLoginAt(inactive, login);
      if k < |inactive| {
        StepBack(users, inactive, pool, done, k);
        users, inactive := users + [inactive[k]], inactive[..k] + inactive[k + 1..];
      } else {
        var found := FindLogin(users, login);
        if found.Some? {
          StepDup(users, inactive, pool, done, login);
        } else {
          var u := new User(login);
          StepNew(users, inactive, pool, done, u);
          users := users + [u];
        }
      }
    }

    /** `db_reload`. The file is given as its lines, or as absent when it
        cannot be opened, which fails with the error number and changes
        nothing. Otherwise every record goes to the inactive list, and the
        logins of the lines are admitted in file order. The records that
        were there before keep their pid and pipe. */
    method Reload(file: Option<seq<seq<char>>>, errno: int) returns (r: int)
      requires Valid()
      modifies this`users, this`inactive
      ensures file.None? ==> r == -errno && users == old(users) && inactive == old(inactive)
      ensures file.Some? ==> r == 0 && Reconciled(old(inactive + users), FileLogins(file.value))
      ensures forall u :: u in users ==> u in old(inactive + users) || fresh(u)
      ensures Valid()
    {
      if file.None? {
        return -errno;
      }
      ghost var pool := inactive + users;
      inactive := inactive + users;
      users := [];
      RemainingNone(pool);
      assert Logins(users) == [];
      AdmitAll(pool, file.value);
      ReconciledFacts(pool, FileLogins(file.value));
      r := 0;
    }

    /** The line loop of `db_reload`: the logins of the lines are admitted
        in file order. */
    method AdmitAll(ghost pool: seq<User>, lines: seq<seq<char>>)
      requires Reconciled(pool, [])
      modifies this`users, this`inactive
      ensures Reconciled(pool, FileLogins(lines))
      ensures forall u :: u in users ==> u in old(users) || u in pool || fresh(u)
    {
      ghost var done: seq<seq<char>> := [];
      var i := 0;
      while i < |lines|
        invariant 0 <= i <= |lines| && done == FileLogins(lines[..i])
        invariant Reconciled(pool, done)
        invariant forall u :: u in users ==> u in old(users) || u in pool || fresh(u)
      {
        var login := LoginOf(lines[i]);
        Admit(pool, done, login);
        done := done + [login];
        assert lines[..i + 1] == lines[..i] + [lines[i]];
        i := i + 1;
      }
      assert lines[..i] == lines;
    }

    /** `db_start_process`: the active record with the login gets the
        pid of the process started for it and, as its pipe, the socket
        `sock` that `socket_add` makes of `pipefd`, with one reference
        taken; an unknown login changes nothing. */
    method StartProcess(login: seq<char>, pid: int, pipefd: int, sock: nat)
      modifies users, this`log
      ensures login in Logins(users) ==>
        var u := users[IndexOf(Logins(users), login)];
        u.pid == pid && u.pipe == Some(sock) && log == old(log) + StartEffects(pipefd, sock)
      ensures login !in Logins(users) ==> log == old(log)
      ensures forall v :: v in users && (login !in Logins(users) || v != users[IndexOf(Logins(users), login)]) ==>
        v.pid == old(v.pid) && v.pipe == old(v.pipe)
    {
      var u := FindLogin(users, login);
      if u.Some? {
        u.value.pid, u.value.pipe := pid, Some(sock);
        log := log + StartEffects(pipefd, sock);
      }
    }

    /** `db_end_process`: the first active record with the pid, else the
        first inactive one, has its pipe deleted and released and loses
        its process; an unknown pid changes nothing. The record found is
        returned. */
    method EndProcess(pid: int) returns (ended: Option<User>)
      modifies users, inactive, this`log
      ensures ended == if pid in old(Pids(users)) then Some(users[IndexOf(old(Pids(users)), pid)])
        else if pid in old(Pids(inactive)) then Some(inactive[IndexOf(old(Pids(inactive)), pid)])
        else None
      ensures ended.Some? ==> ended.value.pid == 0 && ended.value.pipe == None
      ensures ended.Some? ==> log == old(log) + EndEffects(old(ended.value.pipe))
      ensures ended.None? ==> log == old(log)
      ensures forall v :: v in users + inactive && Some(v) != ended ==> v.pid == old(v.pid) && v.pipe == old(v.pipe)
    {
      ended := FindPid(users, pid);
      if ended.None? {
        ended := FindPid(inactive, pid);
      }
      if ended.Some? {
        log := log + EndEffects(ended.value.pipe);
        ended.value.pid, ended.value.pipe := 0, None;
      }
    }

    /** `db_user_exists`: whether an active record has the login. */
    method UserExists(login: seq<char>) returns (b: bool)
      ensures b <==> login in Logins(users)
    {
      var u := FindLogin(users, login);
      b := u.Some?;
    }

    /** `db_get_pipe`: the pipe of the active record with the login, none
        for an unknown login. A known user with no pipe has a process
        spawned for it. `spawned` is what `spawn` does: on success its
        parent branch reports the process through `db_start_process`
        (pid, pipe descriptor, and the socket made of it) before
        returning, so the new pipe is returned; on failure no pipe. */
    method GetPipe(login: seq<char>, spawned: Option<(int, int, nat)>) returns (pipe: Option<nat>)
      modifies users, this`log
      ensures login !in Logins(users) ==> pipe == None && log == old(log)
      ensures login in Logins(users) && old(users[IndexOf(Logins(users), login)].pipe).Some? ==>
        pipe == old(users[IndexOf(Logins(users), login)].pipe) && log == old(log)
      ensures login in Logins(users) && old(users[IndexOf(Logins(users), login)].pipe).None? ==>
        var u := users[IndexOf(Logins(users), login)];
        && (spawned.None? ==> pipe == None && u.pid == old(u.pid) && log == old(log) + [Spawn(login)])
        && (spawned.Some? ==> var (pid, fd, sock) := spawned.value;
              pipe == Some(sock) && u.pid == pid && u.pipe == Some(sock)
              && log == old(log) + [Spawn(login)] + StartEffects(fd, sock))
      ensures forall v :: v in users && (login !in Logins(users) || v != users[IndexOf(Logins(users), login)]) ==>
        v.pid == old(v.pid) && v.pipe == old(v.pipe)
    {
      var u := FindLogin(users, login);
      if u.None? {
        return None;
      }
      if u.value.pipe.Some? {
        return u.value.pipe;
      }
      log := log + [Spawn(login)];
      if spawned.Some? {
        var (pid, fd, sock) := spawned.value;
        StartProcess(login, pid, fd, sock);
      }
      pipe := u.value.pipe;
    }
  }

  /** A scan that stopped at the first match found `IndexOf`. */
  lemma IndexOfUnique<T>(s: seq<T>, x: T, k: nat)
    requires k <= |s| && x !in s[..k] && (k < |s| ==> s[k] == x)
    ensures k == IndexOf(s, x)
  {
  }

  /** A login not yet done is added to the deduplicated logins. */
  lemma DedupStep(done: seq<seq<char>>, l: seq<char>)
    ensures Dedup(done + [l]) == if l in done then Dedup(done) else Dedup(done) + [l]
  {
    DedupSpec(done);
    assert (done + [l])[..|done|] == done;
  }
}
