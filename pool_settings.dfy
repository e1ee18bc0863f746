/**
 * What the connection pool's constructor makes of the caller's settings: the
 * required-key checks, the defaults, the three integer settings, and the JDBC URL
 * built from the host when a new connection is opened.
 */
module PoolSettings {
  import opened Results
  import opened JavaText

  /** A `java.util.Properties` object: text keys to text values. */
  type Properties = map<string, string>

  const HostKey := "database.host"
  const NameKey := "database.name"
  const UserKey := "database.user"
  const PasswordKey := "database.password"
  const PortKey := "database.port"
  const MaxIdleTimeKey := "database.connection.max.idle.time"
  const MinSizeKey := "database.min.connection.in.pool"
  const MaxSizeKey := "database.max.connection.in.pool"

  const DefaultPort := "3306"
  const DefaultPassword := ""
  const DefaultMaxSize := "10"
  const DefaultMinSize := "1"
  const DefaultMaxIdleTime := "1800000"

  const JdbcPrefix := "jdbc:mysql://"

  const NullSettingsMessage := "Datasource settings can not be null."

  /** The message of the required-key check, naming the key it was asked about. */
  function NullArgumentMessage(key: string): string {
    "Argument " + key + " can not be null."
  }

  /** The settings handed to the MySQL driver when a connection is opened. */
  datatype DriverSettings = DriverSettings(host: string, dbName: string, port: string, user: string, password: string)

  /** Everything the pool keeps from its settings. */
  datatype PoolConfig = PoolConfig(driver: DriverSettings, maxSize: int, minSize: int, maxIdleTime: int)

  /** The exceptions the constructor can throw. */
  datatype ConfigFault =
    | IllegalArgument(message: string)   // IllegalArgumentException
    | NullSetting(key: string)           // NullPointerException from Properties.setProperty(key, null)
    | NumberFormat(text: string)         // NumberFormatException from Integer.valueOf

  /** `settings.getProperty(key, default)`. */
  function GetOr(settings: Properties, key: string, default: string): string {
    if key in settings then settings[key] else default
  }

  /**
   * The required-key check as written: whichever key it is asked about, it tests
   * the HOST key, and the message names the key it was asked about.
   */
  function CheckRequired(settings: Properties, key: string): (r: Option<ConfigFault>)
    ensures r.Some? <==> HostKey !in settings
    ensures r.Some? ==> r.value == IllegalArgument(NullArgumentMessage(key))
  {
    if HostKey !in settings then Some(IllegalArgument(NullArgumentMessage(key))) else None
  }

  /** The four required-key checks, in the constructor's order; the first failure is thrown. */
  function CheckAllRequired(settings: Properties): Option<ConfigFault> {
    var checks := [CheckRequired(settings, HostKey), CheckRequired(settings, NameKey),
                   CheckRequired(settings, UserKey), CheckRequired(settings, PasswordKey)];
    if checks[0].Some? then checks[0]
    else if checks[1].Some? then checks[1]
    else if checks[2].Some? then checks[2]
    else checks[3]
  }

  /** Only a missing host makes the required-key checks fail, and then the message names the host key. */
  lemma OnlyHostIsRequired(settings: Properties)
    ensures CheckAllRequired(settings).Some? <==> HostKey !in settings
    ensures HostKey !in settings ==>
      CheckAllRequired(settings) == Some(IllegalArgument(NullArgumentMessage(HostKey)))
  {
  }

  /** The three integer settings, parsed in the constructor's order (max, min, idle time). */
  function ParseLimits(settings: Properties): (r: Result<(int, int, int), ConfigFault>)
    ensures r.Success? <==>
      ParseInt(GetOr(settings, MaxSizeKey, DefaultMaxSize)).Some?
      && ParseInt(GetOr(settings, MinSizeKey, DefaultMinSize)).Some?
      && ParseInt(GetOr(settings, MaxIdleTimeKey, DefaultMaxIdleTime)).Some?
    ensures r.Success? ==>
      Some(r.value.0) == ParseInt(GetOr(settings, MaxSizeKey, DefaultMaxSize))
      && Some(r.value.1) == ParseInt(GetOr(settings, MinSizeKey, DefaultMinSize))
      && Some(r.value.2) == ParseInt(GetOr(settings, MaxIdleTimeKey, DefaultMaxIdleTime))
    ensures ParseInt(GetOr(settings, MaxSizeKey, DefaultMaxSize)).None? ==>
      r == Failure(NumberFormat(GetOr(settings, MaxSizeKey, DefaultMaxSize)))
    ensures (ParseInt(GetOr(settings, MaxSizeKey, DefaultMaxSize)).Some?
             && ParseInt(GetOr(settings, MinSizeKey, DefaultMinSize)).None?) ==>
      r == Failure(NumberFormat(GetOr(settings, MinSizeKey, DefaultMinSize)))
    ensures (ParseInt(GetOr(settings, MaxSizeKey, DefaultMaxSize)).Some?
             && ParseInt(GetOr(settings, MinSizeKey, DefaultMinSize)).Some?
             && ParseInt(GetOr(settings, MaxIdleTimeKey, DefaultMaxIdleTime)).None?) ==>
      r == Failure(NumberFormat(GetOr(settings, MaxIdleTimeKey, DefaultMaxIdleTime)))
  {
    var maxText := GetOr(settings, MaxSizeKey, DefaultMaxSize);
    var minText := GetOr(settings, MinSizeKey, DefaultMinSize);
    var idleText := GetOr(settings, MaxIdleTimeKey, DefaultMaxIdleTime);
    match ParseInt(maxText)
    case None => Failure(NumberFormat(maxText))
    case Some(maxSize) =>
      match ParseInt(minText)
      case None => Failure(NumberFormat(minText))
      case Some(minSize) =>
        match ParseInt(idleText)
        case None => Failure(NumberFormat(idleText))
        case Some(maxIdleTime) => Success((maxSize, minSize, maxIdleTime))
  }

  /**
   * The pool constructor's treatment of its settings. `None` is a null settings
   * object. After the required-key checks, the name and the user are copied with
   * `setProperty`, which throws on a missing (null) value; port and password have
   * defaults; the three limits are parsed last.
   */
  function Configure(settings: Option<Properties>): (r: Result<PoolConfig, ConfigFault>)
    ensures settings.None? ==> r == Failure(IllegalArgument(NullSettingsMessage))
    ensures settings.Some? && HostKey !in settings.value ==>
      r == Failure(IllegalArgument(NullArgumentMessage(HostKey)))
    ensures settings.Some? && HostKey in settings.value && NameKey !in settings.value ==>
      r == Failure(NullSetting(NameKey))
    ensures settings.Some? && HostKey in settings.value && NameKey in settings.value && UserKey !in settings.value ==>
      r == Failure(NullSetting(UserKey))
    ensures r.Success? ==>
      var s := settings.value;
      && HostKey in s && NameKey in s && UserKey in s
      && r.value.driver == DriverSettings(s[HostKey], s[NameKey], GetOr(s, PortKey, DefaultPort),
                                          s[UserKey], GetOr(s, PasswordKey, DefaultPassword))
      && ParseLimits(s) == Success((r.value.maxSize, r.value.minSize, r.value.maxIdleTime))
    ensures settings.Some? && HostKey in settings.value && NameKey in settings.value && UserKey in settings.value ==>
      (r.Success? <==> ParseLimits(settings.value).Success?)
    ensures (settings.Some? && HostKey in settings.value && NameKey in settings.value && UserKey in settings.value
             && ParseLimits(settings.value).Failure?) ==>
      r == Failure(ParseLimits(settings.value).error)
  {
    match settings
    case None => Failure(IllegalArgument(NullSettingsMessage))
    case Some(s) =>
      var check := CheckAllRequired(s);
      if check.Some? then Failure(check.value)
      else if NameKey !in s then Failure(NullSetting(NameKey))
      else if UserKey !in s then Failure(NullSetting(UserKey))
      else
        var driver := DriverSettings(s[HostKey], s[NameKey], GetOr(s, PortKey, DefaultPort),
                                     s[UserKey], GetOr(s, PasswordKey, DefaultPassword));
        match ParseLimits(s)
        case Failure(e) => Failure(e)
        case Success(limits) => Success(PoolConfig(driver, limits.0, limits.1, limits.2))
  }

  /** The defaults: port 3306, empty password, at most 10 and at least 1 idle connection,
      idle connections expire after 1800000 ms. */
  lemma ConfigureDefaults(host: string, name: string, user: string)
    ensures Configure(Some(map[HostKey := host, NameKey := name, UserKey := user]))
      == Success(PoolConfig(DriverSettings(host, name, "3306", user, ""), 10, 1, 1800000))
  {
    DefaultLimitsParse();
  }

  /** The three default limits are well-formed numbers. */
  lemma DefaultLimitsParse()
    ensures ParseInt(DefaultMaxSize) == Some(10)
    ensures ParseInt(DefaultMinSize) == Some(1)
    ensures ParseInt(DefaultMaxIdleTime) == Some(1800000)
  {
    ParseShowInt(10);
    assert ShowInt(10) == DefaultMaxSize;
    ParseShowInt(1);
    assert ShowInt(1) == DefaultMinSize;
    ParseShowInt(1800000);
    assert ShowInt(1800000) == DefaultMaxIdleTime;
  }

  /** The URL handed to the driver: the host as it is when it already carries the
      `jdbc:mysql://` prefix, otherwise the host behind that prefix. */
  function JdbcUrl(host: string): (url: string)
    ensures StartsWith(url, JdbcPrefix) && EndsWith(url, host)
    ensures url == host <==> StartsWith(host, JdbcPrefix)
    ensures !StartsWith(host, JdbcPrefix) ==> |url| == |JdbcPrefix| + |host|
  {
    if StartsWith(host, JdbcPrefix) then host else JdbcPrefix + host
  }

  /** Building the URL twice adds nothing: the prefix is added at most once. */
  lemma JdbcUrlIdempotent(host: string)
    ensures JdbcUrl(JdbcUrl(host)) == JdbcUrl(host)
  {
  }
}
