/** The authorization decision for a client connection: crates/gateway/src/client/connection.rs. */
module Authorization {
  import opened Types
  import opened Repositories
  import Alpn
  import Decimal

  /** What the TLS layer delivers: no certificate chain, one that does not parse, or a user identity. */
  datatype Certificate = NoChain | Unreadable | Identity(user: U64)

  datatype AuthError =
    | InvalidClientCertificate
    | DeviceError
    | SystemError
    | UnknownUser
    | InactiveUser
    | InvalidAlpnProtocol
    | AlpnPanic
    | AccessLookupError
    | Forbidden

  datatype AuthResult = Authorized(protocol: Alpn.Protocol, user: User) | Denied(error: AuthError)

  /** One connection attempt, and whether each store could be read for it. */
  datatype Attempt = Attempt(cert: Certificate, alpn: Option<string>, usersReadable: bool, accessReadable: bool)

  function ParseAlpn(alpn: Option<string>): Alpn.ParseResult {
    match alpn
    case None => Alpn.NoMatch
    case Some(name) => Alpn.Parse(name, Alpn.IsUnicodeDigit)
  }

  /** The decision chain, in the order the checks are made. */
  function Authorize(a: Attempt, users: map<U64, User>, accesses: map<(U64, U64), ServiceAccess>,
                     service: Option<U64>): AuthResult {
    if a.cert.NoChain? then Denied(InvalidClientCertificate)
    else if a.cert.Unreadable? then Denied(DeviceError)
    else if a.cert.user == 0 then Denied(InvalidClientCertificate)
    else if !a.usersReadable then Denied(SystemError)
    else if a.cert.user !in users then Denied(UnknownUser)
    else if users[a.cert.user].status != Active then Denied(InactiveUser)
    else match ParseAlpn(a.alpn)
      case NoMatch => Denied(InvalidAlpnProtocol)
      case Panicked => Denied(AlpnPanic)
      case Parsed(protocol) =>
        if service.None? then Authorized(protocol, users[a.cert.user])
        else if protocol != Alpn.ServiceProxy(service.value) then Denied(InvalidAlpnProtocol)
        else if !a.accessReadable then Denied(AccessLookupError)
        else if (a.cert.user, service.value) !in accesses then Denied(Forbidden)
        else Authorized(protocol, users[a.cert.user])
  }

  /** What a service connection needs: a known active user, the service's own ALPN name, and a grant. */
  ghost predicate MayUse(a: Attempt, users: map<U64, User>, accesses: map<(U64, U64), ServiceAccess>,
                         user: U64, service: U64) {
    && a.cert == Identity(user) && user != 0
    && user in users && users[user].status == Active
    && a.alpn.Some?
    && (exists digits: string {:trigger Decimal.AllDigits(digits)} ::
          && a.alpn.value == Alpn.PROTOCOL_SERVICE + digits && digits != ""
          && Decimal.AllDigits(digits) && Decimal.Value(digits) == service)
    && (user, service) in accesses
  }

  /**
   * A service connection is authorized for a user exactly when that user may use the service (and the
   * stores can be read), and then the id that is handed on for registration is the id that was checked.
   */
  lemma AuthorizedIff(a: Attempt, users: map<U64, User>, accesses: map<(U64, U64), ServiceAccess>,
                      user: U64, service: U64)
    requires KeyedById(users)
    ensures (Authorize(a, users, accesses, Some(service)).Authorized?
             && Authorize(a, users, accesses, Some(service)).user.id == user)
       <==> MayUse(a, users, accesses, user, service) && a.usersReadable && a.accessReadable
  {
    if a.alpn.Some? {
      Alpn.ParsedServiceIff(a.alpn.value, Alpn.IsUnicodeDigit, service);
      if Alpn.Parse(a.alpn.value, Alpn.IsUnicodeDigit) == Alpn.Parsed(Alpn.ServiceProxy(service)) {
        var digits: string :| a.alpn.value == Alpn.PROTOCOL_SERVICE + digits && digits != ""
                              && Decimal.AllDigits(digits) && Decimal.Value(digits) == service;
        assert Decimal.AllDigits(digits);
      }
    }
  }

  /** The certificate names a user who is known and active. */
  ghost predicate Identified(a: Attempt, users: map<U64, User>) {
    && a.cert.Identity? && a.cert.user != 0 && a.usersReadable
    && a.cert.user in users && users[a.cert.user].status == Active
  }

  /** A control-plane connection is authorized exactly for a known and active user whose ALPN name parses. */
  lemma ControlAuthorizedIff(a: Attempt, users: map<U64, User>, accesses: map<(U64, U64), ServiceAccess>,
                             protocol: Alpn.Protocol, user: User)
    ensures Authorize(a, users, accesses, None) == Authorized(protocol, user)
       <==> && Identified(a, users) && users[a.cert.user] == user
            && a.alpn.Some? && Alpn.Parse(a.alpn.value, Alpn.IsUnicodeDigit) == Alpn.Parsed(protocol)
  {
    hide Alpn.Parse;
  }

  /** Who is refused before the ALPN name is looked at, and why: the first of these that holds. */
  lemma UnidentifiedIff(a: Attempt, users: map<U64, User>, accesses: map<(U64, U64), ServiceAccess>,
                        service: Option<U64>)
    ensures var r := Authorize(a, users, accesses, service);
            && (r == Denied(InvalidClientCertificate) <==> a.cert == NoChain || a.cert == Identity(0))
            && (r == Denied(DeviceError) <==> a.cert == Unreadable)
            && (a.cert.Identity? && a.cert.user != 0 ==>
                  && (r == Denied(SystemError) <==> !a.usersReadable)
                  && (r == Denied(UnknownUser) <==> a.usersReadable && a.cert.user !in users)
                  && (r == Denied(InactiveUser) <==>
                        a.usersReadable && a.cert.user in users && users[a.cert.user].status != Active))
  {
    hide Alpn.Parse;
  }

  /** Who is refused after that, and why. */
  lemma RefusedIff(a: Attempt, users: map<U64, User>, accesses: map<(U64, U64), ServiceAccess>,
                   service: Option<U64>)
    requires Identified(a, users)
    ensures var r := Authorize(a, users, accesses, service);
            var parsed := if a.alpn.Some? then Alpn.Parse(a.alpn.value, Alpn.IsUnicodeDigit) else Alpn.NoMatch;
            var right := service.Some? && parsed == Alpn.Parsed(Alpn.ServiceProxy(service.value));
            && (r == Denied(AlpnPanic) <==> parsed.Panicked?)
            && (r == Denied(InvalidAlpnProtocol) <==>
                  parsed.NoMatch? || (parsed.Parsed? && service.Some? && !right))
            && (r == Denied(AccessLookupError) <==> right && !a.accessReadable)
            && (r == Denied(Forbidden) <==>
                  right && a.accessReadable && (a.cert.user, service.value) !in accesses)
            && (r.Authorized? <==>
                  if service.None? then parsed.Parsed?
                  else right && a.accessReadable && (a.cert.user, service.value) in accesses)
  {
    hide Alpn.Parse;
  }

  /** The connection visitor that remembers who was authorized. */
  class ClientConnVisitor {
    const userRepo: UserRepo
    const accessRepo: AccessRepo
    var user: Option<User>

    constructor (userRepo: UserRepo, accessRepo: AccessRepo)
      ensures this.userRepo == userRepo && this.accessRepo == accessRepo && user == None
    {
      this.userRepo := userRepo;
      this.accessRepo := accessRepo;
      user := None;
    }

    method ProcessAuthorization(a: Attempt, service: Option<U64>) returns (r: AuthResult)
      requires userRepo.Valid() && accessRepo.Valid()
      modifies this
      ensures r == Authorize(a, userRepo.users, accessRepo.accesses, service)
      ensures user == if r.Authorized? then Some(r.user) else old(user)
    {
      if a.cert.NoChain? {
        return Denied(InvalidClientCertificate);
      }
      if a.cert.Unreadable? {
        return Denied(DeviceError);
      }
      var userId := a.cert.user;
      if userId == 0 {
        return Denied(InvalidClientCertificate);
      }
      if !a.usersReadable {
        return Denied(SystemError);
      }
      var found := userRepo.Get(userId);
      if found.None? {
        return Denied(UnknownUser);
      }
      if found.value.status != Active {
        return Denied(InactiveUser);
      }
      var parsed := ParseAlpn(a.alpn);
      if parsed.Panicked? {
        return Denied(AlpnPanic);
      }
      if parsed.NoMatch? {
        return Denied(InvalidAlpnProtocol);
      }
      if service.Some? {
        var invalidService :=
          match parsed.protocol
          case ControlPlane => true
          case ServiceProxy(id) => service.value != id;
        if invalidService {
          return Denied(InvalidAlpnProtocol);
        }
        if !a.accessReadable {
          return Denied(AccessLookupError);
        }
        var granted := accessRepo.Get(userId, service.value);
        if granted.None? {
          return Denied(Forbidden);
        }
      }
      user := found;
      return Authorized(parsed.protocol, found.value);
    }
  }
}
