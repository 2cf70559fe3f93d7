/**
 * Google sign-in settings of `internal/auth`: the configuration read from the `oauth` system
 * settings and the hosted-domain restriction. `None` for the settings stands for a failed
 * settings query.
 */
module GoogleOAuth {
  import opened Wrappers
  import opened Text

  datatype OAuthError = OAuthDisabled | OAuthMisconfigured | SettingsUnavailable

  datatype OAuthConfig = OAuthConfig(clientId: string, clientSecret: string, redirectUrl: string, scopes: seq<string>)

  /** The settings key is present and not empty. */
  predicate IsSet(settings: map<string, string>, key: string) {
    key in settings && settings[key] != ""
  }

  /** All three credentials are configured. */
  predicate CredentialsSet(settings: map<string, string>) {
    IsSet(settings, "google_client_id") && IsSet(settings, "google_client_secret") && IsSet(settings, "google_redirect_url")
  }

  /**
   * `GetGoogleOAuthConfig`: a missing credential is reported as misconfiguration even when sign-in
   * is also disabled; with all credentials set, anything but `google_oauth_enabled = "true"` is
   * "disabled"; otherwise the configuration carries the three settings verbatim.
   */
  function GetGoogleOAuthConfig(settings: Option<map<string, string>>): (r: Result<OAuthConfig, OAuthError>)
    ensures settings.None? ==> r == Failure(SettingsUnavailable)
    ensures settings.Some? && !CredentialsSet(settings.value) ==> r == Failure(OAuthMisconfigured)
    ensures settings.Some? && CredentialsSet(settings.value) &&
            !("google_oauth_enabled" in settings.value && settings.value["google_oauth_enabled"] == "true") ==>
            r == Failure(OAuthDisabled)
    ensures r.Success? <==> (settings.Some? && CredentialsSet(settings.value) &&
                             "google_oauth_enabled" in settings.value && settings.value["google_oauth_enabled"] == "true")
    ensures r.Success? ==> (r.value.clientId == settings.value["google_client_id"] &&
                            r.value.clientSecret == settings.value["google_client_secret"] &&
                            r.value.redirectUrl == settings.value["google_redirect_url"])
  {
    if settings.None? then Failure(SettingsUnavailable)
    else
      var s := settings.value;
      if !IsSet(s, "google_client_id") then Failure(OAuthMisconfigured)
      else if !IsSet(s, "google_client_secret") then Failure(OAuthMisconfigured)
      else if !IsSet(s, "google_redirect_url") then Failure(OAuthMisconfigured)
      else if !("google_oauth_enabled" in s && s["google_oauth_enabled"] == "true") then Failure(OAuthDisabled)
      else Success(OAuthConfig(s["google_client_id"], s["google_client_secret"], s["google_redirect_url"],
                               ["openid", "email", "profile"]))
  }

  /** The verdict of the hosted-domain check. `DomainPanic` is the index-out-of-range panic. */
  datatype DomainVerdict = DomainAllowed | DomainRejected(emailDomain: string) | DomainSettingsError | DomainPanic

  /**
   * `ValidateGoogleOAuthDomain`: without a `google_hosted_domain` every e-mail is allowed; with
   * one, the second "@"-separated field of the e-mail must equal it, and an e-mail without "@"
   * makes the check panic.
   */
  function ValidateGoogleOAuthDomain(settings: Option<map<string, string>>, email: string): (v: DomainVerdict)
    ensures v == DomainSettingsError <==> settings.None?
    ensures settings.Some? && !IsSet(settings.value, "google_hosted_domain") ==> v == DomainAllowed
    ensures settings.Some? && IsSet(settings.value, "google_hosted_domain") && '@' !in email ==> v == DomainPanic
    ensures v == DomainAllowed ==>
      settings.Some? && (!IsSet(settings.value, "google_hosted_domain") ||
                         ('@' in email && Split(email, '@')[1] == settings.value["google_hosted_domain"]))
    ensures v.DomainRejected? ==> '@' in email && v.emailDomain == Split(email, '@')[1] &&
                                  v.emailDomain != settings.value["google_hosted_domain"]
  {
    if settings.None? then DomainSettingsError
    else if !IsSet(settings.value, "google_hosted_domain") then DomainAllowed
    else
      var parts := Split(email, '@');
      if |parts| < 2 then DomainPanic
      else if parts[1] != settings.value["google_hosted_domain"] then DomainRejected(parts[1])
      else DomainAllowed
  }

  /**
   * For an ordinary address `local@domain` (one "@"), a configured restriction admits it exactly
   * when the domain is the configured one.
   */
  lemma DomainOfPlainAddress(settings: map<string, string>, local: string, domain: string)
    requires '@' !in local && '@' !in domain
    requires IsSet(settings, "google_hosted_domain")
    ensures var v := ValidateGoogleOAuthDomain(Some(settings), local + "@" + domain);
            (v == DomainAllowed <==> domain == settings["google_hosted_domain"]) &&
            (v != DomainAllowed ==> v == DomainRejected(domain))
  {
    SplitTwo(local, domain, '@');
  }
}
