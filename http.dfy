/** The parts of an Express request and response the authentication core reads and writes:
    the principal markers the middlewares set on the request, and the status and JSON body of
    a response. */
module Http {
  import opened Prelude
  import opened Primitives
  import opened UserModel

  /** The `user` object of a login, register or refresh answer; `isAdmin: true` appears only
      in the admin branch of login. */
  datatype PrincipalView = PrincipalView(id: Id, email: string, role: string, isAdmin: bool)

  datatype Body =
    /** { message } */
    | Message(message: string)
    /** { accessToken, refreshToken, user } */
    | Issued(accessToken: string, refreshToken: string, user: PrincipalView)
    /** { message, teacher: { id, email, role, profile } } */
    | TeacherRegistered(message: string, id: Id, email: string, role: string, profile: Option<Profile>)
    /** { success: false, errors: [{ field, message }] } */
    | Invalid(errors: seq<FieldError>)
    /** { message: error.message } for a rejected save: the schema messages it carries. */
    | SaveFailed(messages: seq<string>)

  datatype Response = Response(status: nat, body: Body)

  /** A request object as the middlewares leave it: `req.admin` and `req.user` hold decoded
      token payloads once set. */
  class Request {
    var admin: Option<Claims>
    var user: Option<Claims>

    constructor ()
      ensures admin.None? && user.None?
    {
      admin := None;
      user := None;
    }
  }
}
