/**
 The coordinator's store: each method is one committed transaction on the tables
 (backend/assemblage/db/store.py).
 */
module Store {
  import opened Wrappers
  import opened Tables
  import opened FanOut
  import opened SqlLike
  import Blocklist

  /** A task ready to be dispatched; the URL is the stored one. */
  datatype Candidate = Candidate(
    taskId: nat, optId: nat, repoId: nat, name: string, url: string, buildSystem: string, flag: string)

  /** The rows `next_dispatchable` may return for an option under the list in force. */
  ghost predicate Eligible(db: Db, list: Option<Blocklist.Blocklist>, opt: nat, id: nat) {
    && id in db.rows
    && db.rows[id].clone == NotStarted && db.rows[id].build == Init && db.rows[id].opt == opt
    && db.rows[id].repo in db.repos
    && (list.Some? ==> !Blocklist.LikeBlocked(list.value, db.repos[db.rows[id].repo].url))
  }

  function CandidateOf(db: Db, id: nat): Candidate
    requires id in db.rows && db.rows[id].repo in db.repos && db.rows[id].opt in db.opts
  {
    var row := db.rows[id];
    var repo, opt := db.repos[row.repo], db.opts[row.opt];
    Candidate(id, row.opt, row.repo, repo.name, repo.url, repo.buildSystem, opt.identity.flag)
  }

  /** What one status update makes of its row, field by field. */
  lemma UpdateWritesFields(row: Row, u: Update, now: int)
    ensures var after := UpdatedRow(row, u, now);
            && after.repo == row.repo && after.opt == row.opt
            && (u.build.None? && u.clone.None? ==> after == row)
            && (u.build.Some? || u.clone.Some? ==>
                  && after.stamp == now
                  && after.build == (if u.build.Some? then u.build.value else row.build)
                  && after.buildTime == (if u.build.Some? && u.buildTime.Some? then u.buildTime.value else row.buildTime)
                  && after.buildMsg == (if u.build.Some? && u.buildMsg.Some? then u.buildMsg.value else row.buildMsg)
                  && after.clone == (if u.clone.Some? then u.clone.value else row.clone)
                  && after.cloneMsg == (if u.clone.Some? && u.cloneMsg.Some? then u.cloneMsg.value else row.cloneMsg)
                  && after.sha == (if u.sha != "" then u.sha else row.sha))
  {
  }

  /** What failing siblings writes: status, message and stamp of the repository's other rows that have
      not started building, and nothing else. */
  lemma FailSiblingsWrites(db: Db, repo: nat, except: nat, msg: string, now: int)
    ensures var db' := Apply(db, OpFailSiblings(repo, except, msg, now));
            && db'.repos == db.repos && db'.opts == db.opts && db'.ir == db.ir && db'.rows.Keys == db.rows.Keys
            && forall i :: i in db.rows ==>
                 db'.rows[i] == if db.rows[i].repo == repo && i != except && db.rows[i].build == Init
                                then db.rows[i].(build := BuildFailed, buildMsg := msg, stamp := now) else db.rows[i]
  {
  }

  class CoordinatorStore {
    var repos: map<nat, Repo>
    var opts: map<nat, BuildOpt>
    var rows: map<nat, Row>
    var ir: map<(nat, string), IrRecord>
    var nextRepo: nat
    var nextOpt: nat
    var nextRow: nat

    function Contents(): Db
      reads this
    {
      Db(repos, opts, rows, ir, nextRepo, nextOpt, nextRow)
    }

    ghost predicate Valid()
      reads this
    {
      Inv(Contents())
    }

    constructor ()
      ensures Contents() == EMPTY_DB && Valid()
    {
      repos, opts, rows, ir := map[], map[], map[], map[];
      nextRepo, nextOpt, nextRow := 0, 0, 0;
      new;
      ReachableInv([]);
    }

    /** Match-or-create by the nine identity columns; a new option gets its rows. */
    method RegisterBuildOpt(reg: Identity) returns (id: nat)
      requires Valid()
      modifies this
      ensures Valid()
      ensures Contents() == Apply(old(Contents()), OpRegister(reg))
      ensures id in opts && opts[id] == BuildOpt(reg, true)
    {
      ghost var before := Contents();
      ApplyKeepsInv(before, OpRegister(reg));
      var existing := FindOpt(opts, reg, nextOpt);
      if existing.Some? {
        id := existing.value;
        EnableOpt(reg, id);
      } else {
        id := nextOpt;
        BackfillStatuses(reg, id);
        opts, nextOpt := opts[id := BuildOpt(reg, true)], nextOpt + 1;
      }
      assert Contents() == Tables.RegisterBuildOpt(before, reg).0;
    }

    method EnableOpt(reg: Identity, id: nat)
      requires FindOpt(opts, reg, nextOpt) == Some(id)
      modifies this`opts
      ensures opts == old(opts)[id := BuildOpt(reg, true)]
    {
      FindOptFinds(opts, reg, nextOpt);
      if !opts[id].enable {
        opts := opts[id := opts[id].(enable := true)];
      }
    }

    method BackfillStatuses(reg: Identity, id: nat)
      modifies this`rows, this`nextRow
      ensures (rows, nextRow) == Backfill(old(Contents()), reg, id, nextRepo)
    {
      var k := 0;
      while k < nextRepo
        invariant k <= nextRepo
        invariant (rows, nextRow) == Backfill(old(Contents()), reg, id, k)
      {
        if k in repos && CoveredAtRegister(reg, repos[k]) {
          rows, nextRow := rows[nextRow := NewRow(k, id, -1)], nextRow + 1;
        }
        k := k + 1;
      }
    }

    /** One scraped repository with its rows; a URL already stored, or a failing statement,
        leaves the tables untouched. */
    method InsertRepos(repo: Repo, now: int, fails: bool) returns (saved: nat)
      requires Valid()
      modifies this
      ensures Valid()
      ensures saved == if fails || UrlTaken(old(repos), repo.url) then 0 else 1
      ensures Contents() == if fails then old(Contents()) else Apply(old(Contents()), OpInsert(repo, now))
      ensures saved == 1 ==> old(nextRepo) in repos && repos[old(nextRepo)] == repo
    {
      ghost var before := Contents();
      ApplyKeepsInv(before, OpInsert(repo, now));
      if fails || UrlTaken(repos, repo.url) {
        return 0;
      }
      var id := nextRepo;
      EnrollStatuses(repo, id, now);
      repos, nextRepo := repos[id := repo], nextRepo + 1;
      return 1;
    }

    method EnrollStatuses(repo: Repo, id: nat, now: int)
      modifies this`rows, this`nextRow
      ensures (rows, nextRow) == Enroll(old(Contents()), repo, id, now, nextOpt)
    {
      var k := 0;
      while k < nextOpt
        invariant k <= nextOpt
        invariant (rows, nextRow) == Enroll(old(Contents()), repo, id, now, k)
      {
        if k in opts && CoveredAtInsert(opts[k].identity, repo) {
          rows, nextRow := rows[nextRow := NewRow(id, k, now)], nextRow + 1;
        }
        k := k + 1;
      }
    }

    /** Some task that is not started and not blocked; None exactly when there is none, so a
        blocked row never hides one behind it. */
    method NextDispatchable(opt: nat, list: Option<Blocklist.Blocklist>) returns (c: Option<Candidate>)
      requires Valid()
      ensures c.Some? ==> Eligible(Contents(), list, opt, c.value.taskId) && c.value == CandidateOf(Contents(), c.value.taskId)
      ensures c.None? ==> forall id :: !Eligible(Contents(), list, opt, id)
      ensures c.Some? ==>
                var id := c.value.taskId;
                && id in rows && rows[id].clone == NotStarted && rows[id].build == Init && rows[id].opt == opt
                && (list.Some? ==> rows[id].repo in repos && !Blocklist.LikeBlocked(list.value, repos[rows[id].repo].url))
      ensures c.None? ==>
                forall id :: id in rows && rows[id].clone == NotStarted && rows[id].build == Init && rows[id].opt == opt ==>
                  list.Some? && rows[id].repo in repos && Blocklist.LikeBlocked(list.value, repos[rows[id].repo].url)
    {
      var patterns: seq<string> := [];
      if list.Some? {
        patterns := Blocklist.LikePatterns(list.value);
      }
      assert RowsRefer(Contents());
      if id :| id in rows && rows[id].clone == NotStarted && rows[id].build == Init && rows[id].opt == opt
               && forall p | p in patterns :: !ILike(p, repos[rows[id].repo].url) {
        return Some(CandidateOf(Contents(), id));
      }
      return None;
    }

    method MarkCloneProcessing(id: nat, now: int)
      requires Valid()
      modifies this
      ensures Valid()
      ensures Contents() == Apply(old(Contents()), OpMark(id, now))
      ensures rows == if id in old(rows) then old(rows)[id := old(rows)[id].(clone := CloneProcessing, stamp := now)] else old(rows)
      ensures repos == old(repos) && opts == old(opts) && ir == old(ir)
    {
      ApplyKeepsInv(Contents(), OpMark(id, now));
      if id in rows {
        rows := rows[id := rows[id].(clone := CloneProcessing, stamp := now)];
      }
    }

    method UpdateRepoStatus(id: nat, u: Update, now: int)
      requires Valid()
      modifies this
      ensures Valid()
      ensures Contents() == Apply(old(Contents()), OpUpdate(id, u, now))
      ensures repos == old(repos) && opts == old(opts) && ir == old(ir) && rows.Keys == old(rows).Keys
      ensures forall i :: i in rows && i != id ==> rows[i] == old(rows)[i]
      ensures id in rows && u.build.None? && u.clone.None? ==> rows[id] == old(rows)[id]
      ensures id in rows && (u.build.Some? || u.clone.Some?) ==>
                var row, after := old(rows)[id], rows[id];
                && after.repo == row.repo && after.opt == row.opt && after.stamp == now
                && after.build == (if u.build.Some? then u.build.value else row.build)
                && after.buildTime == (if u.build.Some? && u.buildTime.Some? then u.buildTime.value else row.buildTime)
                && after.buildMsg == (if u.build.Some? && u.buildMsg.Some? then u.buildMsg.value else row.buildMsg)
                && after.clone == (if u.clone.Some? then u.clone.value else row.clone)
                && after.cloneMsg == (if u.clone.Some? && u.cloneMsg.Some? then u.cloneMsg.value else row.cloneMsg)
                && after.sha == (if u.sha != "" then u.sha else row.sha)
    {
      ApplyKeepsInv(Contents(), OpUpdate(id, u, now));
      if id in rows { UpdateWritesFields(rows[id], u, now); }
      WriteStatus(id, u, now);
    }

    method WriteStatus(id: nat, u: Update, now: int)
      modifies this`rows
      ensures rows == if id in old(rows) then old(rows)[id := UpdatedRow(old(rows)[id], u, now)] else old(rows)
    {
      if u.build.None? && u.clone.None? {
        assert id in rows ==> rows[id := rows[id]] == rows;
        return;
      }
      if id in rows {
        var row := rows[id].(stamp := now);
        if u.build.Some? {
          row := row.(build := u.build.value);
          if u.buildTime.Some? { row := row.(buildTime := u.buildTime.value); }
          if u.buildMsg.Some? { row := row.(buildMsg := u.buildMsg.value); }
        }
        if u.clone.Some? {
          row := row.(clone := u.clone.value);
          if u.cloneMsg.Some? { row := row.(cloneMsg := u.cloneMsg.value); }
        }
        if u.sha != "" { row := row.(sha := u.sha); }
        rows := rows[id := row];
      }
    }

    method FailSiblingStatuses(repo: nat, except: nat, msg: string, now: int) returns (count: nat)
      requires Valid()
      modifies this
      ensures Valid()
      ensures Contents() == Apply(old(Contents()), OpFailSiblings(repo, except, msg, now))
      ensures count == |set i | i in old(rows) && IsInitSibling(old(rows)[i], i, repo, except)|
    {
      ApplyKeepsInv(Contents(), OpFailSiblings(repo, except, msg, now));
      count := WriteFailures(repo, except, msg, now);
    }

    method WriteFailures(repo: nat, except: nat, msg: string, now: int) returns (count: nat)
      modifies this`rows
      ensures rows == map i | i in old(rows) :: if IsInitSibling(old(rows)[i], i, repo, except)
                      then old(rows)[i].(build := BuildFailed, buildMsg := msg, stamp := now) else old(rows)[i]
      ensures count == |set i | i in old(rows) && IsInitSibling(old(rows)[i], i, repo, except)|
    {
      var hit := set i | i in rows && IsInitSibling(rows[i], i, repo, except);
      count := |hit|;
      rows := map i | i in rows :: if IsInitSibling(rows[i], i, repo, except)
                                   then rows[i].(build := BuildFailed, buildMsg := msg, stamp := now) else rows[i];
    }

    /** Insert-or-update of each stage; a task that does not exist violates the foreign key. */
    method UpsertIrArtifacts(id: nat, stages: seq<(string, IrRecord)>) returns (written: Option<nat>)
      requires Valid()
      modifies this
      ensures Valid()
      ensures Contents() == Apply(old(Contents()), OpIr(id, stages))
      ensures written == if id in rows || stages == [] then Some(|stages|) else None
    {
      ghost var before := Contents();
      ApplyKeepsInv(before, OpIr(id, stages));
      if stages == [] { return Some(0); }
      if id !in rows { return None; }
      var n := 0;
      while n < |stages|
        invariant n <= |stages|
        invariant Contents() == before.(ir := UpsertIr(before.ir, id, stages[..n]))
      {
        ir := ir[(id, stages[n].0) := stages[n].1];
        assert stages[..n + 1][..n] == stages[..n];
        n := n + 1;
      }
      assert stages[..n] == stages;
      return Some(n);
    }
  }
}
