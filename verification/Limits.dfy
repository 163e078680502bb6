/** Storage quota and session caps over the table of artifacts. */
module Limits {
  import opened Wrappers
  import opened Artifact

  type Rows = map<string, Row>

  /** The bytes reserved by all rows. */
  ghost function Reserved(rows: Rows): nat {
    if rows == map[] then 0
    else
      var id :| id in rows;
      rows[id].reserved + Reserved(rows - {id})
  }

  lemma {:induction false} ReservedSplits(rows: Rows, id: string)
    requires id in rows
    ensures Reserved(rows) == rows[id].reserved + Reserved(rows - {id})
    decreases |rows|
  {
    var other :| other in rows && Reserved(rows) == rows[other].reserved + Reserved(rows - {other});
    if other != id {
      ReservedSplits(rows - {other}, id);
      ReservedSplits(rows - {id}, other);
      assert rows - {other} - {id} == rows - {id} - {other};
    }
  }

  /** Unfinished uploads, of everyone or of one user. */
  ghost function Sessions(rows: Rows): set<string> {
    set id | id in rows && rows[id].state != Ready
  }

  ghost function SessionsOf(rows: Rows, user: string): set<string> {
    set id | id in rows && rows[id].state != Ready && rows[id].owner == user
  }

  ghost predicate Within(rows: Rows, quota: nat, maxSessions: nat, maxPerUser: nat) {
    && Reserved(rows) <= quota
    && |Sessions(rows)| <= maxSessions
    && forall user :: |SessionsOf(rows, user)| <= maxPerUser
  }

  /** Changing one row without raising its reservation or opening a session stays within the limits. */
  lemma UpdateStaysWithin(rows: Rows, id: string, row: Row, quota: nat, maxSessions: nat, maxPerUser: nat)
    requires Within(rows, quota, maxSessions, maxPerUser) && id in rows
    requires row.reserved == rows[id].reserved && row.owner == rows[id].owner
    requires row.state != Ready ==> rows[id].state != Ready
    ensures Within(rows[id := row], quota, maxSessions, maxPerUser)
  {
    var next := rows[id := row];
    ReservedSplits(rows, id);
    ReservedSplits(next, id);
    assert next - {id} == rows - {id};
    SubsetIsSmaller(Sessions(next), Sessions(rows));
    forall user ensures |SessionsOf(next, user)| <= maxPerUser {
      SubsetIsSmaller(SessionsOf(next, user), SessionsOf(rows, user));
    }
  }

  lemma RemovalStaysWithin(rows: Rows, id: string, quota: nat, maxSessions: nat, maxPerUser: nat)
    requires Within(rows, quota, maxSessions, maxPerUser)
    ensures Within(rows - {id}, quota, maxSessions, maxPerUser)
  {
    if id in rows { ReservedSplits(rows, id); } else { assert rows - {id} == rows; }
    var next := rows - {id};
    SubsetIsSmaller(Sessions(next), Sessions(rows));
    forall user ensures |SessionsOf(next, user)| <= maxPerUser {
      SubsetIsSmaller(SessionsOf(next, user), SessionsOf(rows, user));
    }
  }

  /** A new row is within the limits when the three checks of an init pass. */
  lemma InsertStaysWithin(rows: Rows, id: string, row: Row, quota: nat, maxSessions: nat, maxPerUser: nat)
    requires Within(rows, quota, maxSessions, maxPerUser) && id !in rows
    requires Reserved(rows) + row.reserved <= quota
    requires |Sessions(rows)| < maxSessions && |SessionsOf(rows, row.owner)| < maxPerUser
    ensures Within(rows[id := row], quota, maxSessions, maxPerUser)
  {
    var next := rows[id := row];
    ReservedSplits(next, id);
    assert next - {id} == rows;
    SubsetIsSmaller(Sessions(next), Sessions(rows) + {id});
    forall user ensures |SessionsOf(next, user)| <= maxPerUser {
      if user == row.owner {
        SubsetIsSmaller(SessionsOf(next, user), SessionsOf(rows, user) + {id});
      } else {
        SubsetIsSmaller(SessionsOf(next, user), SessionsOf(rows, user));
      }
    }
  }

  /** The sum and the two counts an init takes before it inserts its row. */
  method Measure(rows: Rows, user: string) returns (reserved: nat, sessions: nat, own: nat)
    ensures reserved == Reserved(rows) && sessions == |Sessions(rows)| && own == |SessionsOf(rows, user)|
  {
    reserved := 0;
    var todo := rows;
    while todo != map[]
      invariant reserved + Reserved(todo) == Reserved(rows)
      decreases |todo|
    {
      var id :| id in todo;
      ReservedSplits(todo, id);
      reserved := reserved + todo[id].reserved;
      todo := todo - {id};
    }
    sessions := |set id | id in rows && rows[id].state != Ready|;
    own := |set id | id in rows && rows[id].state != Ready && rows[id].owner == user|;
  }
}
