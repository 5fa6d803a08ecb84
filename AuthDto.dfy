/** The request and response shapes of the authentication endpoints. */
module AuthDto {
  import opened Wrappers
  import opened Json
  import opened Users

  /** `LoginDto` and `RegisterDto`, which declare the same two fields. */
  datatype Credentials = Credentials(username: string, password: string)

  /** `UserResponseDto`: the user view a login returns. */
  datatype UserView = UserView(username: string, createdAt: int, updatedAt: int)

  datatype LoginResponse = LoginResponse(user: UserView, accessToken: string, refreshToken: string)

  datatype RegisterResponse = RegisterResponse(message: string)

  datatype RefreshTokenResponse = RefreshTokenResponse(accessToken: string, refreshToken: string)

  /** `new UserResponseDto(user)`: copies username and the two timestamps. */
  function UserResponse(user: User): (v: UserView)
    ensures v.username == user.username && v.createdAt == user.createdAt && v.updatedAt == user.updatedAt
  {
    UserView(user.username, user.createdAt, user.updatedAt)
  }

  /** `LoginResponseDto.fromModel`. */
  function LoginResponseFromModel(user: User, accessToken: string, refreshToken: string): (r: LoginResponse)
    ensures r.user == UserResponse(user)
    ensures r.accessToken == accessToken && r.refreshToken == refreshToken
  {
    LoginResponse(UserResponse(user), accessToken, refreshToken)
  }

  /** The login response does not depend on the user's id or password hash:
      two users that differ only there give the same response, and the two
      tokens pass through unchanged. */
  lemma LoginResponseHidesIdAndHash(u1: User, u2: User, accessToken: string, refreshToken: string)
    requires u1.username == u2.username && u1.createdAt == u2.createdAt && u1.updatedAt == u2.updatedAt
    ensures LoginResponseFromModel(u1, accessToken, refreshToken) == LoginResponseFromModel(u2, accessToken, refreshToken)
    ensures LoginResponseFromModel(u1, accessToken, refreshToken).user == UserView(u1.username, u1.createdAt, u1.updatedAt)
    ensures LoginResponseFromModel(u1, accessToken, refreshToken).accessToken == accessToken
    ensures LoginResponseFromModel(u1, accessToken, refreshToken).refreshToken == refreshToken
  {
  }

  /** The declared rules of `LoginDto`/`RegisterDto`: both fields are
      non-empty strings. */
  function ParseCredentials(body: map<string, Json>): (r: Option<Credentials>)
    ensures r.Some? <==> IsNonEmptyString(Field(body, "username")) && IsNonEmptyString(Field(body, "password"))
    ensures r.Some? ==> body["username"] == JStr(r.value.username) && r.value.username != ""
    ensures r.Some? ==> body["password"] == JStr(r.value.password) && r.value.password != ""
  {
    match (StringField(body, "username"), StringField(body, "password"))
    case (Some(u), Some(p)) => Some(Credentials(u, p))
    case _ => None
  }

  /** The declared rule of `RefreshTokenDto`: `refreshToken` is a non-empty string. */
  function ParseRefreshTokenBody(body: map<string, Json>): (r: Option<string>)
    ensures r.Some? <==> IsNonEmptyString(Field(body, "refreshToken"))
    ensures r.Some? ==> body["refreshToken"] == JStr(r.value) && r.value != ""
  {
    StringField(body, "refreshToken")
  }
}
