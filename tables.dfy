/** The two tables, `users` and `resumes`, as sequences of rows in rowid order,
    and the queries the handlers run against them. */
module Tables {
  import opened Http

  /** A row of `users`: the email is unique, the password is stored hashed. */
  datatype User = User(id: int, email: string, passwordHash: string)

  /** A row of `resumes`; `userId` is a plain integer, not a foreign key. */
  datatype Resume = Resume(id: int, title: string, context: string, userId: int)

  // ---------------------------------------------------------------------------
  // Table invariants

  /** Users are never deleted, so the rowids are 1, 2, 3, ... in insertion order. */
  ghost predicate NumberedFromOne(users: seq<User>)
  {
    forall i :: 0 <= i < |users| ==> users[i].id == i + 1
  }

  /** The unique constraint on `users.email` (exact, case-sensitive match). */
  ghost predicate EmailsUnique(users: seq<User>)
  {
    forall i, j :: 0 <= i < j < |users| ==> users[i].email != users[j].email
  }

  ghost predicate UsersValid(users: seq<User>)
  {
    NumberedFromOne(users) && EmailsUnique(users)
  }

  /** Resume rowids are positive and the rows are kept in ascending rowid order;
      in particular no two rows share an id. */
  ghost predicate IdsAscending(rs: seq<Resume>)
  {
    && (forall i :: 0 <= i < |rs| ==> 0 < rs[i].id)
    && (forall i, j :: 0 <= i < j < |rs| ==> rs[i].id < rs[j].id)
  }

  /** Every resume points at an existing user. */
  ghost predicate OwnersExist(rs: seq<Resume>, users: seq<User>)
  {
    forall i :: 0 <= i < |rs| ==> 1 <= rs[i].userId <= |users|
  }

  // ---------------------------------------------------------------------------
  // Queries

  /** `select(UsersModel).where(UsersModel.email == email)` followed by `.first()`. */
  function FindUserByEmail(users: seq<User>, email: string): (r: Option<User>)
    ensures r.Some? ==> r.value in users && r.value.email == email
    ensures r.None? ==> forall u :: u in users ==> u.email != email
  {
    if |users| == 0 then None
    else if users[0].email == email then Some(users[0])
    else FindUserByEmail(users[1..], email)
  }

  /** The index of the row matched by `select(ResumeModel).where(ResumeModel.id == id,
      ResumeModel.user_id == uid).first()`, if any. */
  function FindOwnedResume(rs: seq<Resume>, id: int, uid: int): (r: Option<nat>)
    ensures r.Some? ==> r.value < |rs| && rs[r.value].id == id && rs[r.value].userId == uid
    ensures r.None? ==> forall i :: 0 <= i < |rs| ==> !(rs[i].id == id && rs[i].userId == uid)
  {
    if |rs| == 0 then None
    else if rs[0].id == id && rs[0].userId == uid then Some(0)
    else match FindOwnedResume(rs[1..], id, uid)
      case None => None
      case Some(k) => Some(k + 1)
  }

  /** `select(ResumeModel).where(ResumeModel.user_id == uid).all()`, in rowid order. */
  function OwnedBy(rs: seq<Resume>, uid: int): (r: seq<Resume>)
    ensures forall x :: x in r <==> x in rs && x.userId == uid
    ensures |r| <= |rs|
  {
    if |rs| == 0 then []
    else if rs[0].userId == uid then [rs[0]] + OwnedBy(rs[1..], uid)
    else OwnedBy(rs[1..], uid)
  }

  /** The rowid SQLite gives a new row of a table without AUTOINCREMENT: one more
      than the largest rowid present, or 1 when the table is empty. */
  function NextResumeId(rs: seq<Resume>): (id: int)
    requires IdsAscending(rs)
    ensures 0 < id
    ensures forall i :: 0 <= i < |rs| ==> rs[i].id < id
  {
    if |rs| == 0 then 1 else rs[|rs| - 1].id + 1
  }

  /** The users table after inserting a row with the next rowid. */
  function WithUser(users: seq<User>, email: string, passwordHash: string): seq<User>
  {
    users + [User(|users| + 1, email, passwordHash)]
  }

  // ---------------------------------------------------------------------------
  // Lemmas about the queries

  /** Under the unique constraint, looking a stored email up finds that very row. */
  lemma {:induction false} FindStoredEmail(users: seq<User>, i: nat)
    requires EmailsUnique(users)
    requires i < |users|
    ensures FindUserByEmail(users, users[i].email) == Some(users[i])
  {
    if i > 0 {
      assert users[1..][i - 1] == users[i];
      FindStoredEmail(users[1..], i - 1);
    }
  }

  /** Two stored users with the same email are the same row. */
  lemma SameEmailSameUser(users: seq<User>, u: User, v: User)
    requires EmailsUnique(users)
    requires u in users && v in users && u.email == v.email
    ensures u == v
  {
    var i :| 0 <= i < |users| && users[i] == u;
    var j :| 0 <= j < |users| && users[j] == v;
    FindStoredEmail(users, i);
    FindStoredEmail(users, j);
  }

  /** Inserting a user whose email is not yet present keeps both users invariants,
      and the new row is then what a lookup of its email finds. */
  lemma WithUserKeepsValid(users: seq<User>, email: string, passwordHash: string)
    requires UsersValid(users)
    requires FindUserByEmail(users, email).None?
    ensures UsersValid(WithUser(users, email, passwordHash))
    ensures FindUserByEmail(WithUser(users, email, passwordHash), email)
         == Some(User(|users| + 1, email, passwordHash))
  {
    var us := WithUser(users, email, passwordHash);
    forall i, j | 0 <= i < j < |us| ensures us[i].email != us[j].email {
      if j == |users| {
        assert us[i] in users;
      }
    }
    FindStoredEmail(us, |users|);
  }

  /** Under ascending rowids a resume id names at most one row: the row found for
      an owner is the only one carrying that id. */
  lemma FoundRowIsOnlyRowWithId(rs: seq<Resume>, id: int, uid: int, j: nat)
    requires IdsAscending(rs)
    requires FindOwnedResume(rs, id, uid).Some?
    requires j < |rs| && rs[j].id == id
    ensures j == FindOwnedResume(rs, id, uid).value
  {
  }

  /** A row owned by somebody else is invisible: the owner-scoped lookup misses it
      exactly as it misses an id that is not stored at all. */
  lemma {:induction false} OtherOwnersRowIsNotFound(rs: seq<Resume>, j: nat, uid: int)
    requires IdsAscending(rs)
    requires j < |rs| && rs[j].userId != uid
    ensures FindOwnedResume(rs, rs[j].id, uid) == None
  {
    var id := rs[j].id;
    if FindOwnedResume(rs, id, uid).Some? {
      FoundRowIsOnlyRowWithId(rs, id, uid, j);
    }
  }

  /** Position `k` of the table without row `i` holds the row that was at `k`
      before `i`, and the row one further on from `i` onwards. */
  lemma RemovedAt(rs: seq<Resume>, i: nat, k: nat)
    requires i < |rs| && k < |rs| - 1
    ensures |rs[..i] + rs[i + 1..]| == |rs| - 1
    ensures (rs[..i] + rs[i + 1..])[k] == rs[if k < i then k else k + 1]
  {
    if k < i {
      assert (rs[..i] + rs[i + 1..])[k] == rs[..i][k];
    } else {
      assert (rs[..i] + rs[i + 1..])[k] == rs[i + 1..][k - i];
    }
  }

  /** Removing row `i` keeps the rowids ascending, and leaves exactly the rows
      whose id differs from the removed one. */
  lemma RemoveRow(rs: seq<Resume>, i: nat)
    requires IdsAscending(rs)
    requires i < |rs|
    ensures IdsAscending(rs[..i] + rs[i + 1..])
    ensures forall x :: x in rs[..i] + rs[i + 1..] <==> x in rs && x.id != rs[i].id
  {
    RemoveRowAscending(rs, i);
    forall k | 0 <= k < |rs| && k != i ensures rs[k].id != rs[i].id {
      if k < i { assert rs[k].id < rs[i].id; } else { assert rs[i].id < rs[k].id; }
    }
    RemoveRowMembers(rs, i);
  }

  lemma RemoveRowAscending(rs: seq<Resume>, i: nat)
    requires IdsAscending(rs)
    requires i < |rs|
    ensures IdsAscending(rs[..i] + rs[i + 1..])
  {
    var rest := rs[..i] + rs[i + 1..];
    forall a, b | 0 <= a < b < |rest| ensures 0 < rest[a].id < rest[b].id {
      RemovedAt(rs, i, a);
      RemovedAt(rs, i, b);
      var a', b' := if a < i then a else a + 1, if b < i then b else b + 1;
      assert a' < b';
      assert 0 < rs[a'].id < rs[b'].id;
    }
  }

  lemma RemoveRowMembers(rs: seq<Resume>, i: nat)
    requires i < |rs|
    requires forall k :: 0 <= k < |rs| && k != i ==> rs[k].id != rs[i].id
    ensures forall x :: x in rs[..i] + rs[i + 1..] <==> x in rs && x.id != rs[i].id
  {
    var rest := rs[..i] + rs[i + 1..];
    forall x | x in rest ensures x in rs && x.id != rs[i].id {
      var k :| 0 <= k < |rest| && rest[k] == x;
      RemovedAt(rs, i, k);
    }
    forall x | x in rs && x.id != rs[i].id ensures x in rest {
      var k :| 0 <= k < |rs| && rs[k] == x;
      RemovedAt(rs, i, if k < i then k else k - 1);
    }
  }

  /** Replacing row `i` by a row with the same id keeps the rowids ascending. */
  lemma ReplaceRow(rs: seq<Resume>, i: nat, x: Resume)
    requires IdsAscending(rs)
    requires i < |rs| && x.id == rs[i].id
    ensures IdsAscending(rs[i := x])
  {
  }

  /** Appending a row with the next rowid keeps the rowids ascending. */
  lemma AppendRow(rs: seq<Resume>, x: Resume)
    requires IdsAscending(rs)
    requires x.id == NextResumeId(rs)
    ensures IdsAscending(rs + [x])
  {
  }

  /** Create then fetch: a row appended with the next rowid is what the
      owner-scoped lookup of its id finds. */
  lemma AppendedRowIsFound(rs: seq<Resume>, x: Resume)
    requires IdsAscending(rs)
    requires x.id == NextResumeId(rs)
    ensures FindOwnedResume(rs + [x], x.id, x.userId) == Some(|rs|)
  {
    AppendRow(rs, x);
    FoundRowIsOnlyRowWithId(rs + [x], x.id, x.userId, |rs|);
  }

  /** Update then fetch: a row replaced in place, keeping its id and owner, is
      still found at the same position, now with its new contents. */
  lemma ReplacedRowIsFound(rs: seq<Resume>, i: nat, x: Resume)
    requires IdsAscending(rs)
    requires i < |rs| && x.id == rs[i].id && x.userId == rs[i].userId
    ensures FindOwnedResume(rs[i := x], x.id, x.userId) == Some(i)
  {
    ReplaceRow(rs, i, x);
    assert rs[i := x][i] == x;
    FoundRowIsOnlyRowWithId(rs[i := x], x.id, x.userId, i);
  }

  /** Delete then fetch: once a row is removed, looking its id up gives nothing,
      whoever asks. */
  lemma RemovedRowIsNotFound(rs: seq<Resume>, i: nat, uid: int)
    requires IdsAscending(rs)
    requires i < |rs|
    ensures FindOwnedResume(rs[..i] + rs[i + 1..], rs[i].id, uid) == None
  {
    RemoveRow(rs, i);
  }

  /** Referential integrity: the owner id of every resume is the id of a stored
      user, namely the row at position `userId - 1`. */
  lemma EveryResumeHasStoredOwner(rs: seq<Resume>, users: seq<User>, i: nat)
    requires NumberedFromOne(users) && OwnersExist(rs, users)
    requires i < |rs|
    ensures 0 <= rs[i].userId - 1 < |users|
    ensures users[rs[i].userId - 1] in users && users[rs[i].userId - 1].id == rs[i].userId
  {
  }

  /** The owner filter keeps the rowid order of the table. */
  lemma {:induction false} OwnedByAscending(rs: seq<Resume>, uid: int)
    requires IdsAscending(rs)
    ensures IdsAscending(OwnedBy(rs, uid))
  {
    if |rs| > 0 {
      OwnedByAscending(rs[1..], uid);
      var tail := OwnedBy(rs[1..], uid);
      forall k | 0 <= k < |tail| ensures rs[0].id < tail[k].id {
        assert tail[k] in rs[1..];
      }
    }
  }
}
