/** The database connection holder: one lazily created settings instance
    (host, port, database, credentials and the JDBC URL built from them) and
    one process-wide connection handle that is opened on demand, closed on
    request, and force-closed when the settings change. The JDBC driver is an
    oracle: every attempt to open a handle either `Accepts` or `Refuses`. */
module Connection {
  import opened Common

  const DefaultHost: string := "localhost"
  const DefaultPort: string := "3306"
  const DefaultDatabase: string := "dark_kitchen"
  const DefaultUsername: string := "root"

  const UrlScheme: string := "jdbc:mysql://"
  const UrlOptions: string := "?useSSL=false&serverTimezone=UTC"

  /** A password: the one compiled into the program, or one given later.
      Its text plays no part in any property. */
  datatype Secret = BuiltIn | Given(text: string)

  /** The connection settings of the single instance. */
  datatype Settings = Settings(host: string, port: string, database: string, username: string,
                               password: Secret, url: string)

  /** The JDBC URL for a host, port and database. */
  function BuildUrl(host: string, port: string, database: string): string {
    UrlScheme + host + ":" + port + "/" + database + UrlOptions
  }

  /** Settings whose URL is built from their own host, port and database. */
  function Configure(host: string, port: string, database: string, username: string, password: Secret): Settings {
    Settings(host, port, database, username, password, BuildUrl(host, port, database))
  }

  /** The settings of a fresh instance. */
  function DefaultSettings(): (s: Settings)
    ensures s.host == "localhost" && s.port == "3306" && s.database == "dark_kitchen"
    ensures s.username == "root" && s.password == BuiltIn
    ensures ParseUrl(s.url) == Some(("localhost", "3306", "dark_kitchen"))
  {
    UrlRoundTrip(DefaultHost, DefaultPort, DefaultDatabase);
    Configure(DefaultHost, DefaultPort, DefaultDatabase, DefaultUsername, BuiltIn)
  }

  /** Position of the first `c` in `s`. */
  function IndexOf(s: string, c: char): (r: Option<nat>)
    ensures r.Some? ==> r.value < |s| && s[r.value] == c && c !in s[..r.value]
    ensures r.None? ==> c !in s
  {
    if s == [] then None
    else if s[0] == c then Some(0)
    else
      match IndexOf(s[1..], c)
      case None => None
      case Some(i) =>
        assert s[..i + 1] == [s[0]] + s[1..][..i];
        Some(i + 1)
  }

  /** Splitting at the first `c` of `a + [c] + b` gives back `a` and `b`. */
  lemma {:induction false} IndexOfAfter(a: string, c: char, b: string)
    requires c !in a
    ensures IndexOf(a + [c] + b, c) == Some(|a|)
    ensures (a + [c] + b)[..|a|] == a && (a + [c] + b)[|a| + 1..] == b
  {
    var s := a + [c] + b;
    if a != [] {
      assert s[0] == a[0];
      assert s[1..] == a[1..] + [c] + b;
      IndexOfAfter(a[1..], c, b);
    }
  }

  /** Reads host, port and database back out of a JDBC URL of the shape
      `BuildUrl` produces: host up to the first ':', port up to the next '/'. */
  function ParseUrl(url: string): Option<(string, string, string)> {
    if |url| < |UrlScheme| + |UrlOptions| then None
    else if url[..|UrlScheme|] != UrlScheme || url[|url| - |UrlOptions|..] != UrlOptions then None
    else
      var mid := url[|UrlScheme|..|url| - |UrlOptions|];
      match IndexOf(mid, ':')
      case None => None
      case Some(i) =>
        var rest := mid[i + 1..];
        match IndexOf(rest, '/')
        case None => None
        case Some(j) => Some((mid[..i], rest[..j], rest[j + 1..]))
  }

  /** The fixed scheme and options frame the URL's middle part. */
  lemma UrlFrame(host: string, port: string, database: string)
    ensures var url := BuildUrl(host, port, database);
      && |url| >= |UrlScheme| + |UrlOptions|
      && url[..|UrlScheme|] == UrlScheme && url[|url| - |UrlOptions|..] == UrlOptions
      && url[|UrlScheme|..|url| - |UrlOptions|] == host + [':'] + (port + ['/'] + database)
  {
    var mid := host + [':'] + (port + ['/'] + database);
    assert BuildUrl(host, port, database) == UrlScheme + mid + UrlOptions;
  }

  /** The URL carries the host, port and database, in that order, between the
      fixed scheme and the fixed options, and they can be read back whenever
      the host has no ':' and the port no '/'. */
  lemma UrlRoundTrip(host: string, port: string, database: string)
    requires ':' !in host && '/' !in port
    ensures ParseUrl(BuildUrl(host, port, database)) == Some((host, port, database))
  {
    UrlFrame(host, port, database);
    IndexOfAfter(host, ':', port + ['/'] + database);
    IndexOfAfter(port, '/', database);
  }

  /** The connection-information line shown to the operator. */
  function ConnectionInfo(s: Settings): string {
    "Host: " + s.host + ":" + s.port + " | Database: " + s.database + " | User: " + s.username
  }

  /** The information line does not depend on the password, so it cannot reveal it. */
  lemma InfoOmitsPassword(s: Settings, password: Secret)
    ensures ConnectionInfo(s.(password := password)) == ConnectionInfo(s)
    ensures ConnectionInfo(s)[..6 + |s.host|] == "Host: " + s.host
  {
  }

  /** The shared handle: never opened, open, or closed. Each handle opened
      gets the next serial number, and remembers the URL and user it was
      opened with. */
  datatype Handle =
    | NoHandle
    | Open(serial: nat, url: string, username: string)
    | Closed(serial: nat, url: string, username: string)

  /** Process-wide state: the singleton instance (absent until first asked
      for), the shared handle, and how many handles were ever opened. */
  datatype Process = Process(instance: Option<Settings>, connection: Handle, issued: nat)

  /** Program start: no instance, no handle. */
  const Startup: Process := Process(None, NoHandle, 0)

  /** Serial numbers are handed out in order, and a handle exists only once
      the instance does. */
  ghost predicate Inv(p: Process) {
    && (!p.connection.NoHandle? ==> p.connection.serial < p.issued && p.instance.Some?)
  }

  /** `getInstance`: creates the instance with the default settings the first
      time, and returns the same instance ever after. */
  function GetInstance(p: Process): (r: (Settings, Process))
    ensures r.1.instance == Some(r.0)
    ensures p.instance.Some? ==> r.0 == p.instance.value && r.1 == p
    ensures p.instance.None? ==> r.0 == DefaultSettings() && r.1 == p.(instance := Some(r.0))
  {
    match p.instance
    case Some(s) => (s, p)
    case None => (DefaultSettings(), p.(instance := Some(DefaultSettings())))
  }

  /** Once created, the instance is never replaced by asking for it again. */
  lemma InstanceCreatedOnce(p: Process)
    ensures GetInstance(GetInstance(p).1) == GetInstance(p)
  {
  }

  /** What the driver does with one attempt to open a handle. */
  datatype Attempt = Accepts | Refuses

  /** The handle returned (its serial), or `None` for the SQLException thrown. */
  datatype Acquired = Acquired(handle: Option<nat>, process: Process)

  /** `getConnection`: reuses the handle while it is open; otherwise asks the
      driver for a new one with the instance's URL and user. A refusal is
      thrown to the caller and leaves the handle as it was. */
  function GetConnection(p: Process, attempt: Attempt): (r: Acquired)
    ensures r.process.instance == Some(GetInstance(p).0)
    ensures r.handle.Some? <==> p.connection.Open? || attempt.Accepts?
    ensures p.connection.Open? ==> r.handle == Some(p.connection.serial) && r.process.connection == p.connection
    ensures !p.connection.Open? && attempt.Accepts? ==>
      && r.handle == Some(p.issued)
      && r.process.connection == Open(p.issued, GetInstance(p).0.url, GetInstance(p).0.username)
    ensures r.handle.None? ==> r.process.connection == p.connection
    ensures r.process.issued == p.issued + (if r.process.connection != p.connection then 1 else 0)
    ensures Inv(p) ==> Inv(r.process)
  {
    var s := GetInstance(p).0;
    var q := GetInstance(p).1;
    assert q.connection == p.connection && q.issued == p.issued;
    if q.connection.Open? then Acquired(Some(q.connection.serial), q)
    else if attempt.Refuses? then Acquired(None, q)
    else Acquired(Some(q.issued), q.(connection := Open(q.issued, s.url, s.username), issued := q.issued + 1))
  }

  /** A handle that is open is handed out again, unchanged, without asking the driver. */
  lemma ReusedWhileOpen(p: Process, first: Attempt, second: Attempt)
    requires GetConnection(p, first).handle.Some?
    ensures GetConnection(GetConnection(p, first).process, second) ==
            Acquired(GetConnection(p, first).handle, GetConnection(p, first).process)
  {
  }

  /** `closeConnection`: closes an open handle and does nothing otherwise; no
      error reaches the caller. */
  function CloseConnection(p: Process): (r: Process)
    ensures !r.connection.Open?
    ensures r.instance == p.instance && r.issued == p.issued
    ensures p.connection.Open? ==> r.connection == Closed(p.connection.serial, p.connection.url, p.connection.username)
    ensures !p.connection.Open? ==> r == p
    ensures Inv(p) ==> Inv(r)
  {
    match p.connection
    case Open(n, u, user) => p.(connection := Closed(n, u, user))
    case _ => p
  }

  /** Closing twice is closing once. */
  lemma CloseIdempotent(p: Process)
    ensures CloseConnection(CloseConnection(p)) == CloseConnection(p)
  {
  }

  /** `testConnection`: obtains the handle and runs a trivial query on it;
      true only if both succeed. The handle is left open. */
  function TestConnection(p: Process, attempt: Attempt, probe: Reply): (r: (bool, Process))
    ensures r.0 <==> (p.connection.Open? || attempt.Accepts?) && probe.Completed?
    ensures r.1 == GetConnection(p, attempt).process
    ensures r.0 ==> r.1.connection.Open?
    ensures Inv(p) ==> Inv(r.1)
  {
    var a := GetConnection(p, attempt);
    (a.handle.Some? && probe.Completed?, a.process)
  }

  /** `setConnectionParams` on the instance: replaces all five settings,
      rebuilds the URL, and closes the handle so that the next request opens
      one with the new settings. */
  function SetConnectionParams(p: Process, host: string, port: string, database: string,
                               username: string, password: string): (r: Process)
    requires p.instance.Some?
    ensures r.instance == Some(Configure(host, port, database, username, Given(password)))
    ensures !r.connection.Open? && r.issued == p.issued
    ensures Inv(p) ==> Inv(r)
  {
    CloseConnection(p.(instance := Some(Configure(host, port, database, username, Given(password)))))
  }

  /** After a reconfiguration the next handle is a new one, issued with the new URL and user. */
  lemma ReconfiguredHandleUsesNewSettings(p: Process, host: string, port: string, database: string,
                                          username: string, password: string)
    requires p.instance.Some?
    ensures var q := SetConnectionParams(p, host, port, database, username, password);
      GetConnection(q, Accepts).process.connection == Open(p.issued, BuildUrl(host, port, database), username)
  {
  }

  /** The outcome of one repository call: the handle it used, whether its
      statement completed, and the process state afterwards. */
  datatype DaoOutcome = DaoOutcome(handle: Option<nat>, reply: Reply, process: Process)

  /** One repository call: obtain the shared handle, run the statement, and
      close the handle as the try-with-resources block ends. */
  function DaoCall(p: Process, attempt: Attempt, statement: Reply): (r: DaoOutcome)
    ensures r.handle == GetConnection(p, attempt).handle
    ensures r.reply.Completed? <==> r.handle.Some? && statement.Completed?
    ensures !r.process.connection.Open?
    ensures r.process.issued == GetConnection(p, attempt).process.issued
    ensures Inv(p) ==> Inv(r.process)
  {
    var a := GetConnection(p, attempt);
    if a.handle.None? then DaoOutcome(None, Raised, a.process)
    else DaoOutcome(a.handle, statement, CloseConnection(a.process))
  }

  /** Repository calls do not share a handle: each one closes the handle it
      used, so the next request opens a handle never handed out before. */
  lemma NextHandleIsFresh(p: Process, attempt: Attempt, statement: Reply)
    requires Inv(p)
    ensures var q := DaoCall(p, attempt, statement).process;
      && GetConnection(q, Accepts).handle == Some(q.issued)
      && (DaoCall(p, attempt, statement).handle.Some? ==> DaoCall(p, attempt, statement).handle.value < q.issued)
  {
  }

  /** A successful probe leaves its handle open, and the next repository call
      reuses it whatever the driver would say, then closes it. */
  lemma ProbeHandleReusedOnce(p: Process, probeAttempt: Attempt, attempt: Attempt, statement: Reply)
    requires TestConnection(p, probeAttempt, Completed).0
    ensures var q := TestConnection(p, probeAttempt, Completed).1;
      && DaoCall(q, attempt, statement).handle == GetConnection(p, probeAttempt).handle
      && DaoCall(q, attempt, statement).reply == statement
      && !DaoCall(q, attempt, statement).process.connection.Open?
  {
  }
}
