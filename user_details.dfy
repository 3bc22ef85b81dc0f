/**
  `CustomUserDetailsService.loadUserByUsername`: the account Spring Security
  authenticates against, built from the user row.
*/
module UserDetailsService {
  import opened Optional
  import opened Entities
  import opened Exceptions
  import opened Repositories

  /** Spring's `User(username, password, enabled, accountNonExpired, credentialsNonExpired, accountNonLocked, authorities)`. */
  datatype UserDetails = UserDetails(
    username: string,
    password: Option<string>,
    enabled: bool,
    accountNonExpired: bool,
    credentialsNonExpired: bool,
    accountNonLocked: bool,
    authorities: seq<string>)

  /** The authority granted for a role: `"ROLE_" + rol.name()`. */
  function Authority(rol: Rol): string {
    "ROLE_" + RolName(rol)
  }

  function LoadUserByUsername(us: seq<Usuario>, username: string): Result<UserDetails> {
    match FindByUsername(us, username)
    case None => Err(UsernameNotFound(Some("Usuario no encontrado: " + username)))
    case Some(u) =>
      Ok(UserDetails(u.username, u.password, !u.bloqueado, true, true, !u.bloqueado, [Authority(u.rol)]))
  }

  /**
    An unknown name is a UsernameNotFoundException naming it. A known account
    is enabled and unlocked exactly when it is not blocked, never expires,
    and holds exactly the one authority of its role.
  */
  lemma LoadUserByUsernameSpec(us: seq<Usuario>, username: string)
    requires UniqueAccounts(us)
    ensures LoadUserByUsername(us, username).Err? <==> !ExistsByUsername(us, username)
    ensures LoadUserByUsername(us, username).Err? ==>
              LoadUserByUsername(us, username).error == UsernameNotFound(Some("Usuario no encontrado: " + username))
    ensures forall i :: 0 <= i < |us| && us[i].username == username ==>
              var d := LoadUserByUsername(us, username);
              && d.Ok?
              && d.value.username == username && d.value.password == us[i].password
              && d.value.enabled == !us[i].bloqueado && d.value.accountNonLocked == !us[i].bloqueado
              && d.value.accountNonExpired && d.value.credentialsNonExpired
              && d.value.authorities == [Authority(us[i].rol)]
  {
    forall i | 0 <= i < |us| && us[i].username == username {
      FindByUsernameUnique(us, username, i);
    }
  }

  /** `hasRole('ADMIN')` holds for the loaded account exactly when its role is ADMIN. */
  lemma AdminAuthority(rol: Rol)
    ensures Authority(rol) == "ROLE_ADMIN" <==> rol == ADMIN
  {
    assert Authority(USUARIO)[5] == 'U';
  }
}
