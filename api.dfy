/** The request handlers over the application's database: registration and the
    owner-scoped resume routes. Each handler runs as one sequential request;
    the protected ones resolve the caller with `Authenticate` before they touch
    the `resumes` table. */
module Api {
  import opened Http
  import opened Tables
  import opened Crypto
  import opened Auth

  /** The fixed marker the improve route appends to a resume's context. */
  const ImprovedMarker: string := " [Improved]"

  /** The body of `POST /resumes` and `PUT /resumes/{id}`. */
  datatype ResumeForm = ResumeForm(title: string, context: string)

  /** The database: both tables, in rowid order. */
  class Store {
    var users: seq<User>
    var resumes: seq<Resume>

    ghost predicate Valid()
      reads this
    {
      UsersValid(users) && IdsAscending(resumes) && OwnersExist(resumes, users)
    }

    /** A freshly created, empty database. */
    constructor ()
      ensures Valid()
      ensures users == [] && resumes == []
    {
      users := [];
      resumes := [];
    }

    /** `POST /register`: 400 when the email is taken, leaving the users table as
        it was; otherwise one new user with the salted hash of the password. */
    method Register(cred: Credentials, salt: string, hasher: PasswordHasher) returns (r: Reply<()>)
      requires Valid()
      modifies this
      ensures Valid()
      ensures resumes == old(resumes)
      ensures (exists u :: u in old(users) && u.email == cred.email) ==>
                r == Err(EmailTaken) && users == old(users)
      ensures (forall u :: u in old(users) ==> u.email != cred.email) ==>
                r == Ok(()) && users == WithUser(old(users), cred.email, hasher.hash(cred.password, salt))
    {
      if FindUserByEmail(users, cred.email).Some? {
        return Err(EmailTaken);
      }
      var hashed := hasher.hash(cred.password, salt);
      WithUserKeepsValid(users, cred.email, hashed);
      users := WithUser(users, cred.email, hashed);
      r := Ok(());
    }

    /** `POST /resumes`: 401 when the caller does not authenticate; otherwise one
        new resume, owned by the caller, with the submitted title and context and
        a rowid no existing resume has. */
    method AddResume(cookies: map<string, string>, ts: TokenService, form: ResumeForm) returns (r: Reply<()>)
      requires Valid()
      modifies this
      ensures Valid()
      ensures users == old(users)
      ensures Authenticate(users, cookies, ts).Err? ==> r == Err(Unauthorized) && resumes == old(resumes)
      ensures Authenticate(users, cookies, ts).Ok? ==>
                && r == Ok(())
                && resumes == old(resumes) + [Resume(NextResumeId(old(resumes)), form.title, form.context,
                                                     Authenticate(users, cookies, ts).value.id)]
      ensures r.Ok? ==> forall i :: 0 <= i < |old(resumes)| ==> old(resumes)[i].id < resumes[|resumes| - 1].id
    {
      var caller := Authenticate(users, cookies, ts);
      if caller.Err? {
        return Err(Unauthorized);
      }
      var row := Resume(NextResumeId(resumes), form.title, form.context, caller.value.id);
      AppendRow(resumes, row);
      resumes := resumes + [row];
      r := Ok(());
    }

    /** `GET /resumes`: 401, or exactly the caller's resumes in rowid order. */
    function ListResumes(cookies: map<string, string>, ts: TokenService): (r: Reply<seq<Resume>>)
      reads this
      ensures r.Err? <==> Authenticate(users, cookies, ts).Err?
      ensures r.Err? ==> r.error == Unauthorized
      ensures r.Ok? ==> forall x :: x in r.value <==> x in resumes && x.userId == Authenticate(users, cookies, ts).value.id
    {
      match Authenticate(users, cookies, ts)
      case Err(e) => Err(e)
      case Ok(u) => Ok(OwnedBy(resumes, u.id))
    }

    /** `GET /resumes/{id}`: 401, 404 when the caller owns no resume with that id
        (whether the id is missing or belongs to someone else), or that resume. */
    function GetResume(cookies: map<string, string>, ts: TokenService, id: int): (r: Reply<Resume>)
      reads this
      ensures Authenticate(users, cookies, ts).Err? ==> r == Err(Unauthorized)
      ensures Authenticate(users, cookies, ts).Ok? && r.Err? ==>
                && r.error == NotFound
                && forall x :: x in resumes && x.id == id ==> x.userId != Authenticate(users, cookies, ts).value.id
      ensures r.Ok? ==> r.value in resumes && r.value.id == id && r.value.userId == Authenticate(users, cookies, ts).value.id
    {
      match Authenticate(users, cookies, ts)
      case Err(e) => Err(e)
      case Ok(u) =>
        match FindOwnedResume(resumes, id, u.id)
        case None => Err(NotFound)
        case Some(i) => Ok(resumes[i])
    }

    /** `PUT /resumes/{id}`: 401, or 404 leaving the table as it was, or the
        caller's resume with that id gets the new title and context and keeps its
        id and owner, every other row unchanged. */
    method UpdateResume(cookies: map<string, string>, ts: TokenService, id: int, form: ResumeForm) returns (r: Reply<()>)
      requires Valid()
      modifies this
      ensures Valid()
      ensures users == old(users)
      ensures Authenticate(users, cookies, ts).Err? ==> r == Err(Unauthorized) && resumes == old(resumes)
      ensures Authenticate(users, cookies, ts).Ok? ==>
                match FindOwnedResume(old(resumes), id, Authenticate(users, cookies, ts).value.id)
                case None => r == Err(NotFound) && resumes == old(resumes)
                case Some(i) =>
                  && r == Ok(())
                  && resumes == old(resumes)[i := old(resumes)[i].(title := form.title, context := form.context)]
    {
      var caller := Authenticate(users, cookies, ts);
      if caller.Err? {
        return Err(Unauthorized);
      }
      var found := FindOwnedResume(resumes, id, caller.value.id);
      if found.None? {
        return Err(NotFound);
      }
      var i := found.value;
      var row := resumes[i].(title := form.title, context := form.context);
      ReplaceRow(resumes, i, row);
      resumes := resumes[i := row];
      r := Ok(());
    }

    /** `DELETE /resumes/{id}`: 401, or 404 leaving the table as it was, or the
        caller's resume with that id is removed and every other row stays. */
    method DeleteResume(cookies: map<string, string>, ts: TokenService, id: int) returns (r: Reply<()>)
      requires Valid()
      modifies this
      ensures Valid()
      ensures users == old(users)
      ensures Authenticate(users, cookies, ts).Err? ==> r == Err(Unauthorized) && resumes == old(resumes)
      ensures Authenticate(users, cookies, ts).Ok? ==>
                match FindOwnedResume(old(resumes), id, Authenticate(users, cookies, ts).value.id)
                case None => r == Err(NotFound) && resumes == old(resumes)
                case Some(i) =>
                  && r == Ok(())
                  && resumes == old(resumes)[..i] + old(resumes)[i + 1..]
                  && forall x :: x in resumes <==> x in old(resumes) && x.id != id
    {
      var caller := Authenticate(users, cookies, ts);
      if caller.Err? {
        return Err(Unauthorized);
      }
      var found := FindOwnedResume(resumes, id, caller.value.id);
      if found.None? {
        return Err(NotFound);
      }
      var i := found.value;
      RemoveRow(resumes, i);
      resumes := resumes[..i] + resumes[i + 1..];
      r := Ok(());
    }

    /** `POST /resumes/{id}/improve`: 401, or 404 leaving the table as it was, or
        the marker is appended to the context of the caller's resume with that id,
        the new context is returned and every other row is unchanged. */
    method ImproveResume(cookies: map<string, string>, ts: TokenService, id: int) returns (r: Reply<string>)
      requires Valid()
      modifies this
      ensures Valid()
      ensures users == old(users)
      ensures Authenticate(users, cookies, ts).Err? ==> r == Err(Unauthorized) && resumes == old(resumes)
      ensures Authenticate(users, cookies, ts).Ok? ==>
                match FindOwnedResume(old(resumes), id, Authenticate(users, cookies, ts).value.id)
                case None => r == Err(NotFound) && resumes == old(resumes)
                case Some(i) =>
                  && r == Ok(old(resumes)[i].context + ImprovedMarker)
                  && resumes == old(resumes)[i := old(resumes)[i].(context := old(resumes)[i].context + ImprovedMarker)]
    {
      var caller := Authenticate(users, cookies, ts);
      if caller.Err? {
        return Err(Unauthorized);
      }
      var found := FindOwnedResume(resumes, id, caller.value.id);
      if found.None? {
        return Err(NotFound);
      }
      var i := found.value;
      var row := resumes[i].(context := resumes[i].context + ImprovedMarker);
      ReplaceRow(resumes, i, row);
      resumes := resumes[i := row];
      r := Ok(row.context);
    }
  }
}
