/** DatabaseConfig: the connection settings are read from database.properties, each one
    falling back to the JVM system property of the same name and then to a built-in
    default; from them the class derives the JDBC URL and the pool settings and starts
    one connection pool, which shutdown closes at most once. */
module DatabaseConfigModel {
  import opened JavaLang
  import opened Exceptions

  /** A java.util.Properties table (and the JVM's system properties). */
  type Properties = map<string, string>

  const PropertiesFile := "database.properties"
  const HostKey := "database.host"
  const PortKey := "database.port"
  const NameKey := "database.name"
  const UserKey := "database.user"
  const PasswordKey := "database.password"
  const MaxSizeKey := "database.pool.maximum-size"
  const ConnectionTimeoutKey := "database.pool.connection-timeout"
  const IdleTimeoutKey := "database.pool.idle-timeout"
  const MaxLifetimeKey := "database.pool.max-lifetime"

  const DefaultHost := "localhost"
  const DefaultPort := "3306"
  const DefaultName := "testdb"
  const DefaultUser := "root"
  const DefaultPassword := ""
  const DefaultMaxSize := "10"
  const DefaultConnectionTimeout := "30000"
  const DefaultIdleTimeout := "600000"
  const DefaultMaxLifetime := "1800000"
  const LeakDetectionThreshold: Int64 := 60000

  const UrlScheme := "jdbc:mysql://"
  const UrlOptions := "?useSSL=true&serverTimezone=UTC&allowPublicKeyRetrieval=true"

  const NotFoundMessage := "Unable to find " + PropertiesFile
  const LoadFailedMessage := "Failed to load database configuration"
  const InitFailedMessage := "Database initialization failed"

  /** The three statement-cache settings handed to the MySQL driver. */
  const DriverProperties: Properties :=
    map["cachePrepStmts" := "true", "prepStmtCacheSize" := "250", "prepStmtCacheSqlLimit" := "2048"]

  /** `properties.getProperty(key, System.getProperty(key, d))`: the three sources laid
      over each other, the file on top, the system property below, the default last. */
  function ResolveProperty(file: Properties, system: Properties, key: string, d: string): (v: string)
    ensures v == (map[key := d] + system + file)[key]
  {
    if key in file then file[key] else if key in system then system[key] else d
  }

  /** The precedence spelled out: a value in the file wins, whatever the system says;
      a system property is used only when the file lacks the key; the default only when
      both lack it. */
  lemma ResolvePrecedence(file: Properties, system: Properties, system': Properties, key: string, d: string)
    ensures key in file ==> ResolveProperty(file, system, key, d) == ResolveProperty(file, system', key, d) == file[key]
    ensures key !in file && key in system ==> ResolveProperty(file, system, key, d) == system[key]
    ensures key !in file && key !in system ==> ResolveProperty(file, system, key, d) == d
  {
    var v := ResolveProperty(file, system, key, d);
    assert v == (map[key := d] + system + file)[key];
  }

  /** getDatabaseName, and the database part of the URL: "database.name", else "testdb". */
  function DatabaseName(file: Properties, system: Properties): string {
    ResolveProperty(file, system, NameKey, DefaultName)
  }

  /** `String.format("jdbc:mysql://%s:%s/%s?useSSL=true&...", host, port, dbName)`. */
  function JdbcUrl(host: string, port: string, db: string): string {
    UrlScheme + host + ":" + port + "/" + db + UrlOptions
  }

  /** Reading the database back out of a URL: the text between the last '/' and the
      fixed options. */
  function UrlDatabase(url: string): (r: Option<string>)
    ensures r.Some? ==> '/' !in r.value
  {
    if |url| < |UrlOptions| || url[|url| - |UrlOptions|..] != UrlOptions then None
    else
      var path := url[..|url| - |UrlOptions|];
      var slash := LastIndexOf(path, '/');
      if slash < 0 then None else Some(path[slash + 1..])
  }

  /** The last '/' of `a + "/" + b` is the separator when b holds none. */
  lemma LastSlashIsSeparator(a: string, b: string)
    requires '/' !in b
    ensures LastIndexOf(a + "/" + b, '/') == |a|
  {
    var s := a + "/" + b;
    assert s[|a|] == '/';
    assert s[|a| + 1..] == b;
  }

  /** The URL names exactly the configured database, whatever host and port are, as long
      as the name itself holds no '/'. */
  lemma {:induction false} UrlDatabaseRoundTrip(host: string, port: string, db: string)
    requires '/' !in db
    ensures UrlDatabase(JdbcUrl(host, port, db)) == Some(db)
  {
    var head := UrlScheme + host + ":" + port;
    var url := JdbcUrl(host, port, db);
    var path := head + "/" + db;
    assert url == path + UrlOptions;
    assert url[|url| - |UrlOptions|..] == UrlOptions;
    assert url[..|url| - |UrlOptions|] == path;
    LastSlashIsSeparator(head, db);
    assert path[|head| + 1..] == db;
  }

  /** The settings handed to HikariConfig before the pool starts. */
  datatype PoolConfig = PoolConfig(
    jdbcUrl: string,
    username: string,
    password: string,
    maximumPoolSize: Int32,
    connectionTimeout: Int64,
    idleTimeout: Int64,
    maxLifetime: Int64,
    leakDetectionThreshold: Int64,
    dataSourceProperties: Properties)

  /** The body of initializeDataSource up to `new HikariDataSource(config)`: the URL from
      host, port and name, the credentials, and the four numbers parsed in the order the
      setters run, the first one that does not parse raising a NumberFormatException. */
  function BuildPoolConfig(file: Properties, system: Properties): (r: Outcome<PoolConfig>)
    ensures var size := ResolveProperty(file, system, MaxSizeKey, DefaultMaxSize);
            var connection := ResolveProperty(file, system, ConnectionTimeoutKey, DefaultConnectionTimeout);
            var idle := ResolveProperty(file, system, IdleTimeoutKey, DefaultIdleTimeout);
            var lifetime := ResolveProperty(file, system, MaxLifetimeKey, DefaultMaxLifetime);
            && (r.Return? <==>
                  ParseInt(size).Some? && ParseLong(connection).Some? && ParseLong(idle).Some? && ParseLong(lifetime).Some?)
            && (r.Throw? ==>
                  r.thrown == NumberFormat(
                    if ParseInt(size).None? then size
                    else if ParseLong(connection).None? then connection
                    else if ParseLong(idle).None? then idle
                    else lifetime))
            && (r.Return? ==>
                  && r.value.maximumPoolSize == ParseInt(size).value
                  && r.value.connectionTimeout == ParseLong(connection).value
                  && r.value.idleTimeout == ParseLong(idle).value
                  && r.value.maxLifetime == ParseLong(lifetime).value)
    ensures r.Return? ==>
              && r.value.jdbcUrl == JdbcUrl(ResolveProperty(file, system, HostKey, DefaultHost),
                                            ResolveProperty(file, system, PortKey, DefaultPort),
                                            DatabaseName(file, system))
              && r.value.username == ResolveProperty(file, system, UserKey, DefaultUser)
              && r.value.password == ResolveProperty(file, system, PasswordKey, DefaultPassword)
              && r.value.leakDetectionThreshold == LeakDetectionThreshold
              && r.value.dataSourceProperties == DriverProperties
  {
    var url := JdbcUrl(ResolveProperty(file, system, HostKey, DefaultHost),
                       ResolveProperty(file, system, PortKey, DefaultPort),
                       ResolveProperty(file, system, NameKey, DefaultName));
    var user := ResolveProperty(file, system, UserKey, DefaultUser);
    var password := ResolveProperty(file, system, PasswordKey, DefaultPassword);
    var size := ResolveProperty(file, system, MaxSizeKey, DefaultMaxSize);
    match ParseInt(size)
    case None => Throw(NumberFormat(size))
    case Some(maxSize) =>
      var connection := ResolveProperty(file, system, ConnectionTimeoutKey, DefaultConnectionTimeout);
      match ParseLong(connection)
      case None => Throw(NumberFormat(connection))
      case Some(connectionTimeout) =>
        var idle := ResolveProperty(file, system, IdleTimeoutKey, DefaultIdleTimeout);
        match ParseLong(idle)
        case None => Throw(NumberFormat(idle))
        case Some(idleTimeout) =>
          var lifetime := ResolveProperty(file, system, MaxLifetimeKey, DefaultMaxLifetime);
          match ParseLong(lifetime)
          case None => Throw(NumberFormat(lifetime))
          case Some(maxLifetime) =>
            Return(PoolConfig(url, user, password, maxSize, connectionTimeout, idleTimeout, maxLifetime,
                              LeakDetectionThreshold, DriverProperties))
  }

  /** Neither the file nor the system properties set `key`. */
  predicate Unset(file: Properties, system: Properties, key: string) {
    key !in file && key !in system
  }

  /** The default pool size parses as 10. */
  lemma DefaultMaxSizeParses()
    ensures ParseInt(DefaultMaxSize) == Some(10)
  {
    IntToStringRoundTrip(10, -0x8000_0000, MaxInt32);
    assert IntToString(10) == DefaultMaxSize;
  }

  /** The default connection timeout parses as 30000 ms. */
  lemma DefaultConnectionTimeoutParses()
    ensures ParseLong(DefaultConnectionTimeout) == Some(30000)
  {
    IntToStringRoundTrip(30000, -0x8000_0000_0000_0000, 0x7FFF_FFFF_FFFF_FFFF);
    assert IntToString(30000) == DefaultConnectionTimeout;
  }

  /** The default idle timeout parses as 600000 ms. */
  lemma DefaultIdleTimeoutParses()
    ensures ParseLong(DefaultIdleTimeout) == Some(600000)
  {
    IntToStringRoundTrip(600000, -0x8000_0000_0000_0000, 0x7FFF_FFFF_FFFF_FFFF);
    assert IntToString(600000) == DefaultIdleTimeout;
  }

  /** The default maximum lifetime parses as 1800000 ms. */
  lemma DefaultMaxLifetimeParses()
    ensures ParseLong(DefaultMaxLifetime) == Some(1800000)
  {
    IntToStringRoundTrip(1800000, -0x8000_0000_0000_0000, 0x7FFF_FFFF_FFFF_FFFF);
    assert IntToString(1800000) == DefaultMaxLifetime;
  }

  /** With nothing configured the pool connects to testdb on localhost:3306 as root with
      an empty password, holds at most 10 connections, waits 30 s for one, retires idle
      ones after 10 min and every one after 30 min, and reports leaks after 60 s. */
  lemma DefaultPoolConfig(file: Properties, system: Properties)
    requires Unset(file, system, HostKey) && Unset(file, system, PortKey) && Unset(file, system, NameKey)
    requires Unset(file, system, UserKey) && Unset(file, system, PasswordKey)
    requires Unset(file, system, MaxSizeKey) && Unset(file, system, ConnectionTimeoutKey)
    requires Unset(file, system, IdleTimeoutKey) && Unset(file, system, MaxLifetimeKey)
    ensures BuildPoolConfig(file, system)
            == Return(PoolConfig(JdbcUrl("localhost", "3306", "testdb"), "root", "", 10, 30000, 600000, 1800000,
                                 60000, DriverProperties))
  {
    DefaultMaxSizeParses();
    DefaultConnectionTimeoutParses();
    DefaultIdleTimeoutParses();
    DefaultMaxLifetimeParses();
  }

  /** A pool size written into the file as Integer.toString(n) is the size the pool gets,
      whatever the system properties say. */
  lemma ConfiguredPoolSizeIsUsed(file: Properties, system: Properties, n: Int32)
    requires file[MaxSizeKey := IntToString(n)] == file
    requires BuildPoolConfig(file, system).Return?
    ensures BuildPoolConfig(file, system).value.maximumPoolSize == n
  {
    assert MaxSizeKey in file && file[MaxSizeKey] == IntToString(n);
    ParseIntRoundTrip(n);
  }

  /** getDatabaseName and the URL agree: the database the pool connects to is the one
      getDatabaseName reports. */
  lemma UrlNamesTheReportedDatabase(file: Properties, system: Properties)
    requires BuildPoolConfig(file, system).Return?
    requires '/' !in DatabaseName(file, system)
    ensures UrlDatabase(BuildPoolConfig(file, system).value.jdbcUrl) == Some(DatabaseName(file, system))
  {
    UrlDatabaseRoundTrip(ResolveProperty(file, system, HostKey, DefaultHost),
                         ResolveProperty(file, system, PortKey, DefaultPort),
                         DatabaseName(file, system));
  }

  /** What `getResourceAsStream("database.properties")` and `properties.load` meet: no
      such resource; a stream that fails with an IOException after some entries were
      read (while loading, or on close after all were read); or the file's entries. */
  datatype Resource = Missing | Unreadable(readBefore: Properties, error: string) | Found(entries: Properties)

  /** A HikariDataSource: the settings it was started with and whether it is closed. */
  class Pool {
    const config: PoolConfig
    var closed: bool
    /** How many times close() was called on the pool. */
    ghost var closeCalls: nat

    constructor (config: PoolConfig)
      ensures this.config == config && !closed && closeCalls == 0
    {
      this.config := config;
      closed := false;
      closeCalls := 0;
    }

    method Close()
      modifies this
      ensures closed && closeCalls == old(closeCalls) + 1
    {
      closed := true;
      closeCalls := closeCalls + 1;
    }
  }

  /** The static state of DatabaseConfig. The system properties are an input of the
      model. */
  class DatabaseConfig {
    const system: Properties
    var properties: Properties
    var dataSource: Pool?

    /** The state before the static initializer runs: an empty Properties and no pool. */
    constructor (system: Properties)
      ensures this.system == system && properties == map[] && dataSource == null
    {
      this.system := system;
      properties := map[];
      dataSource := null;
    }

    /** A running pool was started from the settings the current properties give. */
    ghost predicate Valid()
      reads this, dataSource
    {
      dataSource != null ==> BuildPoolConfig(properties, system) == Return(dataSource.config)
    }

    /** loadProperties: a missing file raises "Unable to find database.properties",
        which is no IOException and leaves unwrapped; an IOException becomes "Failed to
        load database configuration" with the IOException as cause. Properties.load adds
        entries one by one, so those read before a failure stay. */
    method LoadProperties(resource: Resource) returns (r: Outcome<()>)
      modifies this`properties
      ensures resource.Missing? ==>
                r == Throw(Runtime(NotFoundMessage, None)) && properties == old(properties)
      ensures resource.Unreadable? ==>
                && r == Throw(Runtime(LoadFailedMessage, Some(IO(resource.error))))
                && properties == old(properties) + resource.readBefore
      ensures resource.Found? ==> r == Return(()) && properties == old(properties) + resource.entries
    {
      match resource
      case Missing =>
        return Throw(Runtime(NotFoundMessage, None));
      case Unreadable(readBefore, error) =>
        properties := properties + readBefore;
        return Throw(Runtime(LoadFailedMessage, Some(IO(error))));
      case Found(entries) =>
        properties := properties + entries;
        return Return(());
    }

    /** initializeDataSource: every exception, whether a number that does not parse or
        the pool refusing to start (`startFailure`, standing for whatever
        `new HikariDataSource(config)` throws), becomes "Database initialization
        failed" with that exception as cause, and no pool is set. */
    method InitializeDataSource(startFailure: Option<Thrown>) returns (r: Outcome<()>)
      modifies this`dataSource
      ensures BuildPoolConfig(properties, system).Throw? ==>
                && r == Throw(Runtime(InitFailedMessage, Some(BuildPoolConfig(properties, system).thrown)))
                && dataSource == old(dataSource)
      ensures BuildPoolConfig(properties, system).Return? && startFailure.Some? ==>
                r == Throw(Runtime(InitFailedMessage, startFailure)) && dataSource == old(dataSource)
      ensures BuildPoolConfig(properties, system).Return? && startFailure.None? ==>
                && r == Return(())
                && fresh(dataSource) && dataSource.config == BuildPoolConfig(properties, system).value
                && !dataSource.closed && dataSource.closeCalls == 0
      ensures r.Return? ==> Valid()
    {
      var config := BuildPoolConfig(properties, system);
      if config.Throw? {
        return Throw(Runtime(InitFailedMessage, Some(config.thrown)));
      }
      if startFailure.Some? {
        return Throw(Runtime(InitFailedMessage, startFailure));
      }
      dataSource := new Pool(config.value);
      return Return(());
    }

    /** The static initializer: loadProperties, then initializeDataSource; the first
        exception ends it. */
    method Initialize(resource: Resource, startFailure: Option<Thrown>) returns (r: Outcome<()>)
      requires properties == map[] && dataSource == null
      modifies this`properties, this`dataSource
      ensures r.Return? <==>
                resource.Found? && BuildPoolConfig(resource.entries, system).Return? && startFailure.None?
      ensures r.Return? ==>
                && properties == resource.entries && dataSource != null
                && dataSource.config == BuildPoolConfig(resource.entries, system).value
                && !dataSource.closed
      ensures r.Throw? ==> dataSource == null && r.thrown.Runtime?
      ensures Valid()
    {
      r := LoadProperties(resource);
      if r.Throw? {
        return;
      }
      assert properties == resource.entries;
      r := InitializeDataSource(startFailure);
    }

    /** getDatabaseName: the same lookup the URL uses for its database. */
    function GetDatabaseName(): (name: string)
      reads this
      ensures name == (map[NameKey := DefaultName] + system + properties)[NameKey]
    {
      DatabaseName(properties, system)
    }

    /** shutdown: the pool is closed only when there is one and it is still open, so a
        second shutdown closes nothing. */
    method Shutdown()
      modifies dataSource
      ensures dataSource != null ==> dataSource.closed
      ensures dataSource != null ==>
                dataSource.closeCalls == old(dataSource.closeCalls) + (if old(dataSource.closed) then 0 else 1)
    {
      if dataSource != null && !dataSource.closed {
        dataSource.Close();
      }
    }
  }
}
