/**
 * SetupServiceFacade: the first-run setup. The application is taken offline,
 * the setup description is parsed, and inside a try block the first locale and
 * administrator are created, the packages the caller chose are downloaded and
 * installed in order, the language package for the console culture is
 * installed if there is one, and the setup is registered with the package
 * server. A failure is registered with its text; debug builds then rethrow,
 * release builds swallow it.
 *
 * Everything outside the facade is an oracle of an `Environment` value: the
 * configuration file, XML parsing, culture lookup, the SOAP calls, HTTP
 * deliveries, the package manager and the localisation, user and settings
 * operations. Each call the facade makes to them is recorded as an `Event`
 * in the ghost `trace`. A `Run` is what a step yields together with the
 * events it records; the `...Run` functions state what each method does.
 */
module SetupFacade {
  import opened Wrappers
  import opened Xml
  import opened SetupQueries
  import Text

  /** The size of the download buffer (line 269). */
  const BufferSize: nat := 32768

  // ---------------------------------------------------------------------------
  // Streams
  // ---------------------------------------------------------------------------

  /** How a response stream ends once its chunks are read. */
  datatype StreamEnd = EndOfStream | ThreadAbort | Broken(error: Exception)

  /** What `WebRequest.Create(url).GetResponse()` and its response stream deliver: the chunks
      successive reads return, then how the stream ends. A request that fails outright
      delivers no chunk and ends `Broken`. */
  datatype Delivery = Delivery(chunks: seq<seq<Byte>>, end: StreamEnd)

  /** A read returns between one byte and a buffer's worth. */
  predicate ValidDelivery(d: Delivery)
  {
    forall i :: 0 <= i < |d.chunks| ==> 0 < |d.chunks[i]| <= BufferSize
  }

  function Concat(chunks: seq<seq<Byte>>): seq<Byte>
  {
    if chunks == [] then [] else Concat(chunks[..|chunks| - 1]) + chunks[|chunks| - 1]
  }

  /** A download of a valid delivery holds between one and 32768 bytes per chunk read. */
  lemma {:induction false} ConcatBounds(chunks: seq<seq<Byte>>)
    requires ValidDelivery(Delivery(chunks, EndOfStream))
    ensures |chunks| <= |Concat(chunks)| <= BufferSize * |chunks|
  {
    if chunks != [] {
      var n := |chunks| - 1;
      assert ValidDelivery(Delivery(chunks[..n], EndOfStream)) by {
        forall i | 0 <= i < n
          ensures 0 < |chunks[..n][i]| <= BufferSize
        {
          assert chunks[..n][i] == chunks[i];
        }
      }
      ConcatBounds(chunks[..n]);
      assert 0 < |chunks[n]| <= BufferSize;
    }
  }

  /** The response stream of a delivery. */
  class ResponseStream {
    const delivery: Delivery
    var next: nat

    constructor(delivery: Delivery)
      ensures this.delivery == delivery && next == 0
    {
      this.delivery := delivery;
      next := 0;
    }

    /** `Read(buffer, 0, buffer.Length)`: the next chunk, 0 at the end, or the way the stream breaks. */
    method Read(buffer: array<Byte>) returns (r: Result<nat, StreamEnd>)
      requires ValidDelivery(delivery) && buffer.Length == BufferSize && next <= |delivery.chunks|
      modifies this, buffer
      ensures next <= |delivery.chunks|
      ensures old(next) < |delivery.chunks| ==>
        r == Success(|delivery.chunks[old(next)]|) && next == old(next) + 1 && buffer[..r.value] == delivery.chunks[old(next)]
      ensures old(next) == |delivery.chunks| ==>
        next == old(next) && r == (if delivery.end == EndOfStream then Success(0) else Failure(delivery.end))
    {
      if next < |delivery.chunks| {
        var chunk := delivery.chunks[next];
        forall k | 0 <= k < |chunk| {
          buffer[k] := chunk[k];
        }
        next := next + 1;
        r := Success(|chunk|);
      } else if delivery.end == EndOfStream {
        r := Success(0);
      } else {
        r := Failure(delivery.end);
      }
    }
  }

  /** System.IO.MemoryStream: its bytes and its position. */
  class MemoryStream {
    var content: seq<Byte>
    var position: nat

    constructor()
      ensures content == [] && position == 0
    {
      content := [];
      position := 0;
    }

    /** `Write(buffer, 0, count)` at the current position, zero-filling a gap past the end. */
    method Write(buffer: array<Byte>, count: nat)
      requires count <= buffer.Length
      modifies this
      ensures position == old(position) + count
      ensures var before := if old(position) <= |old(content)| then old(content)[..old(position)]
                            else old(content) + seq(old(position) - |old(content)|, _ => 0);
        content == before + buffer[..count] +
          (if old(position) + count < |old(content)| then old(content)[old(position) + count..] else [])
    {
      var before := if position <= |content| then content[..position] else content + seq(position - |content|, _ => 0);
      var after := if position + count < |content| then content[position + count..] else [];
      content := before + buffer[..count] + after;
      position := position + count;
    }

    /** `Seek(offset, SeekOrigin.Begin)`. */
    method Seek(offset: nat)
      modifies this
      ensures position == offset && content == old(content)
    {
      position := offset;
    }
  }

  // ---------------------------------------------------------------------------
  // Events, the environment and the specification of each step
  // ---------------------------------------------------------------------------

  /** The localisation, user and settings calls of lines 103-114 and 134. */
  datatype Operation =
    | ApplicationStartInitialize
    | AddLocale(culture: string)
    | SetDefaultLocale(culture: string)
    | CreateAdministrator(username: string, password: string, email: string)
    | ValidateUser(username: string, password: string)
    | SetUserCulture(username: string, culture: string)
    | SetConsoleUiLanguage(username: string, culture: string)

  /** The `registration` document of lines 89-94. */
  datatype Registration = Registration(email: string, newsletter: bool, consoleLanguage: string,
                                       websiteLanguage: string, setupDescription: XElement)

  datatype Event =
    | Offline
    | Online
    | Perform(op: Operation)
    | Download(url: string)
    | PreInstall(url: string, package: seq<Byte>)   // PackageManager.Install(stream, true)
    | Validate(url: string)                         // PackageManagerInstallProcess.Validate()
    | Install(url: string)                          // PackageManagerInstallProcess.Install()
    | Register(registration: Registration, exception: string)

  /** What PackageManager.Install returns: the pre-install validation messages, and what the
      later Validate and Install calls return. */
  datatype InstallProcess = InstallProcess(preInstallValidationResult: seq<string>,
                                           validate: Result<seq<string>, Exception>,
                                           install: Result<seq<string>, Exception>)

  datatype Environment = Environment(
    config: Result<XElement, Exception>,                        // ~/App_Data/Composite/Composite.config
    parseXml: string -> Result<XElement, Exception>,            // XElement.Parse
    toInt: ParseInt,                                            // XmlConvert.ToInt32
    culture: string -> Result<string, Exception>,               // new CultureInfo(name).Name
    perform: Operation -> Result<(), Exception>,
    setupDescription: Result<XElement, Exception>,              // SOAP GetSetupDescription
    languagePackages: Result<XElement, Exception>,              // SOAP GetLanguagePackages
    registerSetup: (Registration, string) -> Result<(), Exception>,  // SOAP RegisterSetup
    fetch: string -> Delivery,                                  // HTTP GET
    packageManager: seq<Byte> -> Result<InstallProcess, Exception>,
    defaultCulture: string,                                     // GetDefaultStringCulture()
    isDebugBuild: bool)

  /** What a step yields and the events it records. */
  datatype Run<T> = Run(result: Result<T, Exception>, events: seq<Event>)

  /** `first`, then `next` unless `first` threw. */
  function AndThen<T>(first: Run<()>, next: Run<T>): Run<T>
  {
    if first.result.Failure? then Run(Failure(first.result.error), first.events)
    else Run(next.result, first.events + next.events)
  }

  function PerformRun(env: Environment, op: Operation): Run<()>
  {
    Run(env.perform(op), [Perform(op)])
  }

  /** Lines 222-227: CreateClient, then the SOAP call. */
  function RegisterRun(env: Environment, registration: Registration, exception: string): Run<()>
  {
    match ConfiguredServerUrl(env.config)
    case Failure(e) => Run(Failure(e), [])
    case Success(_) => Run(env.registerSetup(registration, exception), [Register(registration, exception)])
  }

  /** Lines 260-290: the bytes delivered up to the end of the stream or a thread abort, or the
      failure wrapped with the URL. */
  function DownloadRun(env: Environment, url: string): (run: Run<seq<Byte>>)
    ensures run.events == [Download(url)]
    ensures run.result.Success? <==> !env.fetch(url).end.Broken?
    ensures run.result.Success? ==> run.result.value == Concat(env.fetch(url).chunks)
    ensures run.result.Failure? ==> run.result.error == DownloadFailed(url, env.fetch(url).end.error)
  {
    var d := env.fetch(url);
    if d.end.Broken? then Run(Failure(DownloadFailed(url, d.end.error)), [Download(url)])
    else Run(Success(Concat(d.chunks)), [Download(url)])
  }

  /** Lines 397-403: the first message, thrown, if there is one. */
  function LogValidationResults(results: seq<string>): (r: Result<(), Exception>)
    ensures r.Success? <==> results == []
    ensures r.Failure? ==> r.error == InvalidOperation(results[0])
  {
    if results == [] then Success(()) else Failure(InvalidOperation(results[0]))
  }

  /** One phase of an installation: the call it records and the messages it returns. */
  datatype Phase = Phase(event: Event, outcome: Result<seq<string>, Exception>)

  /** How a phase that did not come back empty ends the installation. */
  function PhaseFailure(outcome: Result<seq<string>, Exception>): Result<(), Exception>
  {
    if outcome.Failure? then Failure(outcome.error) else LogValidationResults(outcome.value)
  }

  /** Lines 297-319: the phases in order, each only after the previous one came back empty; the
      first one that does not is the exception thrown. */
  function RunPhases(phases: seq<Phase>): Run<()>
  {
    if phases == [] then Run(Success(()), [])
    else if phases[0].outcome != Success([]) then Run(PhaseFailure(phases[0].outcome), [phases[0].event])
    else
      var rest := RunPhases(phases[1..]);
      Run(rest.result, [phases[0].event] + rest.events)
  }

  /** Lines 297-319: the phases are recorded in order and stop at the first one that does not come
      back empty, whose outcome is the exception; the run succeeds exactly when all come back empty. */
  lemma {:induction false} RunPhasesStopsAtFirstFailure(phases: seq<Phase>)
    ensures var run := RunPhases(phases);
      |run.events| <= |phases| && forall i :: 0 <= i < |run.events| ==> run.events[i] == phases[i].event
    ensures var run := RunPhases(phases);
      run.result.Success? <==> forall i :: 0 <= i < |phases| ==> phases[i].outcome == Success([])
    ensures var run := RunPhases(phases);
      run.result.Success? ==> |run.events| == |phases|
    ensures var run := RunPhases(phases);
      run.result.Failure? ==> 0 < |run.events| && run.result == PhaseFailure(phases[|run.events| - 1].outcome)
    ensures var run := RunPhases(phases);
      forall i :: 0 <= i < |run.events| - 1 ==> phases[i].outcome == Success([])
  {
    if phases != [] && phases[0].outcome == Success([]) {
      RunPhasesStopsAtFirstFailure(phases[1..]);
      var rest := RunPhases(phases[1..]);
      assert RunPhases(phases).events == [phases[0].event] + rest.events;
      forall i | 0 <= i < |phases| && 0 < i
        ensures phases[i] == phases[1..][i - 1]
      {
      }
    }
  }

  /** The three phases of lines 297-319: PackageManager.Install, whose exception ends the
      installation before any validation result exists, then Validate, then Install. */
  function InstallPhases(url: string, package: seq<Byte>, process: Result<InstallProcess, Exception>): seq<Phase>
  {
    match process
    case Failure(e) => [Phase(PreInstall(url, package), Failure(e))]
    case Success(p) =>
      [Phase(PreInstall(url, package), Success(p.preInstallValidationResult)),
       Phase(Validate(url), p.validate),
       Phase(Install(url), p.install)]
  }

  /** Lines 293-328: true when every phase came back empty, the first failure otherwise. */
  function InstallPackageRun(env: Environment, url: string, package: seq<Byte>): (run: Run<bool>)
  {
    var phases := RunPhases(InstallPhases(url, package, env.packageManager(package)));
    Run(if phases.result.Failure? then Failure(phases.result.error) else Success(true), phases.events)
  }

  /** Lines 293-328: the method never returns false, since a non-empty result always throws its
      first message; the three phases run in order, each only after the previous one came back
      empty, and it succeeds exactly when all three come back empty. */
  lemma InstallPackagePhases(env: Environment, url: string, package: seq<Byte>)
    ensures InstallPackageRun(env, url, package).result != Success(false)
    ensures var events := InstallPackageRun(env, url, package).events;
      1 <= |events| <= 3 && events[0] == PreInstall(url, package)
    ensures var process := env.packageManager(package);
      InstallPackageRun(env, url, package).result == Success(true) <==>
        process.Success? && process.value.preInstallValidationResult == [] &&
        process.value.validate == Success([]) && process.value.install == Success([])
    ensures var events := InstallPackageRun(env, url, package).events;
      var process := env.packageManager(package);
      |events| >= 2 <==> process.Success? && process.value.preInstallValidationResult == []
    ensures var events := InstallPackageRun(env, url, package).events;
      |events| >= 2 ==> events[1] == Validate(url)
    ensures var events := InstallPackageRun(env, url, package).events;
      var process := env.packageManager(package);
      |events| == 3 <==> |events| >= 2 && process.value.validate == Success([])
    ensures var events := InstallPackageRun(env, url, package).events;
      |events| == 3 ==> events[2] == Install(url)
    ensures var process := env.packageManager(package);
      process.Success? && process.value.preInstallValidationResult != [] ==>
        InstallPackageRun(env, url, package).result == Failure(InvalidOperation(process.value.preInstallValidationResult[0]))
  {
    var process := env.packageManager(package);
    var phases := InstallPhases(url, package, process);
    var run := RunPhases(phases);
    RunPhasesStopsAtFirstFailure(phases);
    assert 0 < |run.events| by {
      if run.result.Success? {
        assert |run.events| == |phases|;
      }
    }
    if process.Success? {
      var p := process.value;
      assert phases[0].outcome == Success(p.preInstallValidationResult);
      assert phases[1].outcome == p.validate && phases[2].outcome == p.install;
    }
  }

  /** Lines 231-257: false when no language package matches the culture; otherwise its download
      and installation. */
  function LanguageRun(env: Environment, cultureName: string): Run<bool>
  {
    match ConfiguredServerUrl(env.config)
    case Failure(e) => Run(Failure(e), [])
    case Success(server) =>
      match env.languagePackages
      case Failure(e) => Run(Failure(e), [])
      case Success(xml) =>
        match LanguagePackageUrl(xml, cultureName)
        case Failure(e) => Run(Failure(e), [])
        case Success(url) =>
          if url.None? then Run(Success(false), [])
          else
            var packageUrl := FormatPackageUrl(server, url);
            var download := DownloadRun(env, packageUrl);
            if download.result.Failure? then Run(Failure(download.result.error), download.events)
            else
              var install := InstallPackageRun(env, packageUrl, download.result.value);
              Run(if install.result.Failure? then Failure(install.result.error) else Success(true),
                  download.events + install.events)
  }

  /** Lines 231-257 with the lookup: the method returns false, having made no call, exactly when
      no `Language` element carries the culture name as its key. */
  lemma LanguageRunFalse(env: Environment, cultureName: string)
    ensures var run := LanguageRun(env, cultureName);
      run.result == Success(false) <==>
        && ConfiguredServerUrl(env.config).Success? && env.languagePackages.Success?
        && var langs := DescendantsNamed(env.languagePackages.value, Local("Language"));
           forall i :: 0 <= i < |langs| ==> AttributeValue(langs[i], Local("key")) != Some(cultureName)
    ensures var run := LanguageRun(env, cultureName);
      run.result == Success(false) ==> run.events == []
  {
    var run := LanguageRun(env, cultureName);
    if ConfiguredServerUrl(env.config).Success? && env.languagePackages.Success? {
      LanguagePackageUrlCorrect(env.languagePackages.value, cultureName);
      var url := LanguagePackageUrl(env.languagePackages.value, cultureName);
      if url == Success(None) {
        assert run == Run(Success(false), []);
      } else if url.Success? {
        var packageUrl := FormatPackageUrl(ConfiguredServerUrl(env.config).value, url.value);
        var download := DownloadRun(env, packageUrl);
        if download.result.Success? {
          InstallPackagePhases(env, packageUrl, download.result.value);
        }
        assert run.result != Success(false);
      }
    }
  }

  /** Lines 241-256: when the method returns true, it downloaded the URL of the first match and
      handed exactly those bytes, and nothing else, to the package manager. */
  lemma LanguageRunInstallsFirstMatch(env: Environment, cultureName: string)
    requires LanguageRun(env, cultureName).result == Success(true)
    ensures ConfiguredServerUrl(env.config).Success? && env.languagePackages.Success?
    ensures var url := LanguagePackageUrl(env.languagePackages.value, cultureName);
      url.Success? && url.value.Some?
    ensures var packageUrl := FormatPackageUrl(ConfiguredServerUrl(env.config).value,
                                               LanguagePackageUrl(env.languagePackages.value, cultureName).value);
      var events := LanguageRun(env, cultureName).events;
      && |events| > 0 && events[0] == Download(packageUrl)
      && PreInstalls(events) == [(packageUrl, Concat(env.fetch(packageUrl).chunks))]
  {
    var url := LanguagePackageUrl(env.languagePackages.value, cultureName);
    var packageUrl := FormatPackageUrl(ConfiguredServerUrl(env.config).value, url.value);
    var download := DownloadRun(env, packageUrl);
    var install := InstallPackageRun(env, packageUrl, download.result.value);
    InstallPackagePreInstalls(env, packageUrl, download.result.value);
    PreInstallsAppend(download.events, install.events);
    NoPreInstallInDownloads(download.events);
    assert LanguageRun(env, cultureName).events == download.events + install.events;
  }

  /** Lines 121-124 in index order: the first n packages downloaded, or the first failure. */
  function DownloadFirst(env: Environment, urls: seq<string>, n: nat): (run: Run<seq<seq<Byte>>>)
    requires n <= |urls|
    ensures run.result.Success? ==> |run.result.value| == n
  {
    if n == 0 then Run(Success([]), [])
    else
      var init := DownloadFirst(env, urls, n - 1);
      if init.result.Failure? then init
      else
        var last := DownloadRun(env, urls[n - 1]);
        Run(if last.result.Failure? then Failure(last.result.error) else Success(init.result.value + [last.result.value]),
            init.events + last.events)
  }

  /** Lines 126-130: the installation of each package, one per index. */
  function InstallRuns(env: Environment, urls: seq<string>, packages: seq<seq<Byte>>): (runs: seq<Run<bool>>)
    requires |packages| == |urls|
    ensures |runs| == |urls| && forall i :: 0 <= i < |urls| ==> runs[i] == InstallPackageRun(env, urls[i], packages[i])
  {
    seq(|urls|, i requires 0 <= i < |urls| => InstallPackageRun(env, urls[i], packages[i]))
  }

  /** The first n runs in index order, up to the first exception. */
  function Sequenced(runs: seq<Run<bool>>, n: nat): Run<()>
    requires n <= |runs|
  {
    if n == 0 then Run(Success(()), [])
    else
      var init := Sequenced(runs, n - 1);
      if init.result.Failure? then init
      else Run(if runs[n - 1].result.Failure? then Failure(runs[n - 1].result.error) else Success(()),
               init.events + runs[n - 1].events)
  }

  /** Lines 126-130: the first n packages installed in index order, up to the first exception. */
  function InstallFirst(env: Environment, urls: seq<string>, packages: seq<seq<Byte>>, n: nat): Run<()>
    requires |packages| == |urls| && n <= |urls|
  {
    Sequenced(InstallRuns(env, urls, packages), n)
  }

  /** Lines 98-138, the try block, for the lower-cased `username` and the parsed description. */
  function SetupBodyRun(env: Environment, username: string, password: string, email: string, language: string,
                        consoleLanguage: string, setupDescription: XElement, registration: Registration): Run<()>
  {
    match env.culture(language)
    case Failure(e) => Run(Failure(e), [])
    case Success(locale) =>
      match env.culture(consoleLanguage)
      case Failure(e) => Run(Failure(e), [])
      case Success(userCulture) =>
        AndThen(AccountsRun(env, username, password, email, locale, userCulture),
                PackagesRun(env, username, userCulture, setupDescription, registration))
  }

  /** Lines 103-114: start-up, the first locale, the first administrator and the user's culture. */
  function AccountsRun(env: Environment, username: string, password: string, email: string,
                       locale: string, userCulture: string): Run<()>
  {
    var started := PerformRun(env, ApplicationStartInitialize);
    var localized := AndThen(AndThen(started, PerformRun(env, AddLocale(locale))), PerformRun(env, SetDefaultLocale(locale)));
    var created := AndThen(AndThen(localized, PerformRun(env, CreateAdministrator(username, password, email))),
                           PerformRun(env, ValidateUser(username, password)));
    AndThen(created, PerformRun(env, SetUserCulture(username, userCulture)))
  }

  /** Lines 118-136: the packages, then the rest. */
  function PackagesRun(env: Environment, username: string, userCulture: string, setupDescription: XElement,
                       registration: Registration): Run<()>
  {
    match GetPackageUrls(setupDescription, ConfiguredServerUrl(env.config), env.setupDescription, env.toInt)
    case Failure(e) => Run(Failure(e), [])
    case Success(urls) =>
      var downloads := DownloadFirst(env, urls, |urls|);
      if downloads.result.Failure? then Run(Failure(downloads.result.error), downloads.events)
      else
        var installs := InstallFirst(env, urls, downloads.result.value, |urls|);
        AndThen(Run(installs.result, downloads.events + installs.events),
                FinishRun(env, username, userCulture, registration))
  }

  /** Lines 132-136: the language package, the console language and the registration. When this
      completes, the console language set is the user's culture if its language package was
      found and installed, the default culture otherwise, and the last call is the registration
      with an empty exception text. */
  function FinishRun(env: Environment, username: string, userCulture: string, registration: Registration): (run: Run<()>)
    ensures run.result.Success? ==> LanguageRun(env, userCulture).result.Success?
    ensures run.result.Success? && LanguageRun(env, userCulture).result == Success(true) ==>
      Perform(SetConsoleUiLanguage(username, userCulture)) in run.events
    ensures run.result.Success? && LanguageRun(env, userCulture).result == Success(false) ==>
      Perform(SetConsoleUiLanguage(username, env.defaultCulture)) in run.events
    ensures run.result.Success? ==> |run.events| > 0 && run.events[|run.events| - 1] == Register(registration, "")
  {
    var language := LanguageRun(env, userCulture);
    if language.result.Failure? then Run(Failure(language.result.error), language.events)
    else
      var uiCulture := if language.result.value then userCulture else env.defaultCulture;
      AndThen(Run(Success(()), language.events),
      AndThen(PerformRun(env, SetConsoleUiLanguage(username, uiCulture)),
              RegisterRun(env, registration, "")))
  }

  /** What SetUp returns, the events it records and whether the application is online at the end. */
  datatype SetUpOutcome = SetUpOutcome(run: Run<()>, online: bool)

  /** Lines 81-155: offline first; a description that does not parse throws before the try block;
      otherwise the body runs, a failure is registered with its text and then rethrown in debug
      builds and swallowed in release builds, and the application goes online unless the
      registration itself threw. */
  function SetUpRun(env: Environment, setupDescriptionXml: string, username: string, password: string, email: string,
                    language: string, consoleLanguage: string, newsletter: bool): SetUpOutcome
  {
    match env.parseXml(setupDescriptionXml)
    case Failure(e) => SetUpOutcome(Run(Failure(e), [Offline]), false)
    case Success(description) =>
      var registration := Registration(email, newsletter, consoleLanguage, language, description);
      var body := SetupBodyRun(env, Text.ToLowerInvariant(username), password, email, language, consoleLanguage,
                               description, registration);
      if body.result.Success? then SetUpOutcome(Run(Success(()), [Offline] + body.events + [Online]), true)
      else
        var register := RegisterRun(env, registration, ExceptionText(body.result.error));
        if register.result.Failure? then
          SetUpOutcome(Run(Failure(register.result.error), [Offline] + body.events + register.events), false)
        else
          SetUpOutcome(Run(if env.isDebugBuild then Failure(body.result.error) else Success(()),
                           [Offline] + body.events + register.events + [Online]), true)
  }

  /** SetUp as written: it starts by going offline, and it leaves the application offline only
      when an exception escapes, which is always the case when the description does not parse. */
  lemma SetUpRunOffline(env: Environment, setupDescriptionXml: string, username: string, password: string, email: string,
                        language: string, consoleLanguage: string, newsletter: bool)
    ensures var o := SetUpRun(env, setupDescriptionXml, username, password, email, language, consoleLanguage, newsletter);
      |o.run.events| > 0 && o.run.events[0] == Offline
    ensures var o := SetUpRun(env, setupDescriptionXml, username, password, email, language, consoleLanguage, newsletter);
      !o.online ==> o.run.result.Failure?
    ensures var o := SetUpRun(env, setupDescriptionXml, username, password, email, language, consoleLanguage, newsletter);
      env.parseXml(setupDescriptionXml).Failure? ==>
        !o.online && o.run.result == Failure(env.parseXml(setupDescriptionXml).error) && o.run.events == [Offline]
  {
    var o := SetUpRun(env, setupDescriptionXml, username, password, email, language, consoleLanguage, newsletter);
    if env.parseXml(setupDescriptionXml).Success? {
      var description := env.parseXml(setupDescriptionXml).value;
      var registration := Registration(email, newsletter, consoleLanguage, language, description);
      var body := SetupBodyRun(env, Text.ToLowerInvariant(username), password, email, language, consoleLanguage,
                               description, registration);
      assert o.run.events[..1] == [Offline] by {
        assert ([Offline] + body.events)[..1] == [Offline];
      }
    }
  }

  /** SetUp as written, when it goes back online: the call just before is the registration, with an
      empty exception text when the body completed and the text of the body's exception otherwise. */
  lemma SetUpRunOnline(env: Environment, setupDescriptionXml: string, username: string, password: string, email: string,
                       language: string, consoleLanguage: string, newsletter: bool)
    requires SetUpRun(env, setupDescriptionXml, username, password, email, language, consoleLanguage, newsletter).online
    ensures env.parseXml(setupDescriptionXml).Success?
    ensures var events := SetUpRun(env, setupDescriptionXml, username, password, email, language, consoleLanguage, newsletter).run.events;
      |events| >= 2 && events[|events| - 1] == Online
    ensures var events := SetUpRun(env, setupDescriptionXml, username, password, email, language, consoleLanguage, newsletter).run.events;
      var registration := Registration(email, newsletter, consoleLanguage, language, env.parseXml(setupDescriptionXml).value);
      var body := SetupBodyRun(env, Text.ToLowerInvariant(username), password, email, language, consoleLanguage,
                               env.parseXml(setupDescriptionXml).value, registration);
      events[|events| - 2] == Register(registration, if body.result.Success? then "" else ExceptionText(body.result.error))
  {
    var description := env.parseXml(setupDescriptionXml).value;
    var registration := Registration(email, newsletter, consoleLanguage, language, description);
    var body := SetupBodyRun(env, Text.ToLowerInvariant(username), password, email, language, consoleLanguage,
                             description, registration);
    var events := SetUpRun(env, setupDescriptionXml, username, password, email, language, consoleLanguage, newsletter).run.events;
    if body.result.Success? {
      assert events == [Offline] + body.events + [Online];
      SetupBodyEndsRegistered(env, Text.ToLowerInvariant(username), password, email, language, consoleLanguage,
                              description, registration);
      LastTwo([Offline], body.events, Online);
    } else {
      var register := RegisterRun(env, registration, ExceptionText(body.result.error));
      assert events == ([Offline] + body.events) + register.events + [Online];
      RegisterRunShape(env, registration, ExceptionText(body.result.error));
      LastTwo([Offline] + body.events, register.events, Online);
    }
  }

  /** When the body of SetUp completes, its last call is the registration with an empty exception text. */
  lemma SetupBodyEndsRegistered(env: Environment, username: string, password: string, email: string, language: string,
                                consoleLanguage: string, setupDescription: XElement, registration: Registration)
    requires SetupBodyRun(env, username, password, email, language, consoleLanguage, setupDescription, registration).result.Success?
    ensures var events := SetupBodyRun(env, username, password, email, language, consoleLanguage, setupDescription, registration).events;
      |events| > 0 && events[|events| - 1] == Register(registration, "")
  {
    var locale := env.culture(language).value;
    var userCulture := env.culture(consoleLanguage).value;
    var accounts := AccountsRun(env, username, password, email, locale, userCulture);
    var packages := PackagesRun(env, username, userCulture, setupDescription, registration);
    PackagesInstallDownloads(env, username, userCulture, setupDescription, registration);
    assert SetupBodyRun(env, username, password, email, language, consoleLanguage, setupDescription, registration).events
      == accounts.events + packages.events;
  }

  lemma RegisterRunShape(env: Environment, registration: Registration, exception: string)
    requires RegisterRun(env, registration, exception).result.Success?
    ensures RegisterRun(env, registration, exception).events == [Register(registration, exception)]
  {
  }

  // ---------------------------------------------------------------------------
  // Proof helpers: index and associativity facts about event sequences that keep
  // the trace proofs small; they model nothing of the source.
  // ---------------------------------------------------------------------------

  lemma LastTwo(a: seq<Event>, b: seq<Event>, x: Event)
    requires |b| > 0
    ensures var s := a + b + [x]; |s| >= 2 && s[|s| - 1] == x && s[|s| - 2] == b[|b| - 1]
  {
  }

  lemma IndexAfter(a: seq<Event>, b: seq<Event>, c: seq<Event>)
    requires |b| > 0
    ensures (a + b + c)[|a|] == b[0] && (a + b + c)[|a + b + c| - 1] == (if c == [] then b[|b| - 1] else c[|c| - 1])
  {
  }

  lemma AppendAssociative(a: seq<Event>, b: seq<Event>, c: seq<Event>)
    ensures a + b + c == a + (b + c)
  {
  }

  // ---------------------------------------------------------------------------
  // Properties of the specification
  // ---------------------------------------------------------------------------

  /** The packages handed to the package manager, in the order they were. */
  function PreInstalls(events: seq<Event>): (r: seq<(string, seq<Byte>)>)
  {
    if events == [] then []
    else
      var init := PreInstalls(events[..|events| - 1]);
      match events[|events| - 1]
      case PreInstall(url, package) => init + [(url, package)]
      case _ => init
  }

  lemma {:induction false} PreInstallsAppend(a: seq<Event>, b: seq<Event>)
    ensures PreInstalls(a + b) == PreInstalls(a) + PreInstalls(b)
    decreases |b|
  {
    if b != [] {
      assert (a + b)[..|a + b| - 1] == a + b[..|b| - 1];
      PreInstallsAppend(a, b[..|b| - 1]);
    } else {
      assert a + b == a;
    }
  }

  function Zip(urls: seq<string>, packages: seq<seq<Byte>>): (r: seq<(string, seq<Byte>)>)
    requires |packages| == |urls|
    ensures |r| == |urls| && forall i :: 0 <= i < |urls| ==> r[i] == (urls[i], packages[i])
  {
    seq(|urls|, i requires 0 <= i < |urls| => (urls[i], packages[i]))
  }

  /** Packages are installed strictly in index order: the packages handed to the package manager
      are the first ones of the list, each with its own bytes, and all n of them on success. */
  lemma InstallFirstInOrder(env: Environment, urls: seq<string>, packages: seq<seq<Byte>>, n: nat)
    requires |packages| == |urls| && n <= |urls|
    ensures var run := InstallFirst(env, urls, packages, n);
      var installed := PreInstalls(run.events);
      && |installed| <= n
      && installed == Zip(urls, packages)[..|installed|]
      && (run.result.Success? ==> installed == Zip(urls, packages)[..n])
  {
    var runs := InstallRuns(env, urls, packages);
    var zipped := Zip(urls, packages);
    forall i | 0 <= i < |runs|
      ensures PreInstalls(runs[i].events) == [zipped[i]]
    {
      InstallPackagePreInstalls(env, urls[i], packages[i]);
    }
    SequencedInOrder(runs, zipped, n);
  }

  /** When every run hands over exactly its own item, the first n runs hand over a prefix of the
      first n items, and all of them when they succeed. */
  lemma {:induction false} SequencedInOrder(runs: seq<Run<bool>>, items: seq<(string, seq<Byte>)>, n: nat)
    requires |items| == |runs| && n <= |runs|
    requires forall i :: 0 <= i < |runs| ==> PreInstalls(runs[i].events) == [items[i]]
    ensures var run := Sequenced(runs, n);
      var installed := PreInstalls(run.events);
      && |installed| <= n
      && installed == items[..|installed|]
      && (run.result.Success? ==> installed == items[..n])
  {
    if n > 0 {
      SequencedInOrder(runs, items, n - 1);
      var init := Sequenced(runs, n - 1);
      if init.result.Success? {
        PreInstallsAppend(init.events, runs[n - 1].events);
      }
      PrefixStep(PreInstalls(init.events), PreInstalls(Sequenced(runs, n).events), items, n, init.result.Success?);
    }
  }

  lemma PrefixStep<T>(before: seq<T>, after: seq<T>, whole: seq<T>, n: nat, extended: bool)
    requires 0 < n <= |whole|
    requires |before| <= n - 1 && before == whole[..|before|]
    requires extended ==> before == whole[..n - 1]
    requires after == before + (if extended then [whole[n - 1]] else [])
    ensures |after| <= n && after == whole[..|after|]
    ensures extended ==> after == whole[..n]
  {
    if extended {
      assert whole[..n] == whole[..n - 1] + [whole[n - 1]];
    } else {
      assert after == before;
    }
  }

  /** One installation hands exactly its own package to the package manager. */
  lemma InstallPackagePreInstalls(env: Environment, url: string, package: seq<Byte>)
    ensures PreInstalls(InstallPackageRun(env, url, package).events) == [(url, package)]
  {
    InstallPackagePhases(env, url, package);
    var events := InstallPackageRun(env, url, package).events;
    assert events == [events[0]] + events[1..];
    PreInstallsAppend([events[0]], events[1..]);
    assert [events[0]][..0] == [];
    OnlyFirstPreInstall(events[1..], url);
  }

  lemma {:induction false} OnlyFirstPreInstall(events: seq<Event>, url: string)
    requires forall i :: 0 <= i < |events| ==> events[i] == Validate(url) || events[i] == Install(url)
    ensures PreInstalls(events) == []
  {
    if events != [] {
      OnlyFirstPreInstall(events[..|events| - 1], url);
    }
  }

  /** The download of index i is the bytes delivered for `urls[i]`; the first n downloads succeed
      exactly when none of their deliveries breaks, and record one download per URL, in index order. */
  lemma {:induction false} DownloadFirstCorrect(env: Environment, urls: seq<string>, n: nat)
    requires n <= |urls|
    ensures var run := DownloadFirst(env, urls, n);
      && (run.result.Success? <==> forall i :: 0 <= i < n ==> !env.fetch(urls[i]).end.Broken?)
      && (run.result.Success? ==> run.events == seq(n, i requires 0 <= i < n => Download(urls[i])))
      && (run.result.Success? ==> forall i :: 0 <= i < n ==> run.result.value[i] == Concat(env.fetch(urls[i]).chunks))
  {
    if n > 0 {
      DownloadFirstCorrect(env, urls, n - 1);
    }
  }

  /** When the packages step completes, the i-th package installed is the download of the i-th
      package URL, and the last call made is the registration with an empty exception text. */
  lemma PackagesInstallDownloads(env: Environment, username: string, userCulture: string,
                                 setupDescription: XElement, registration: Registration)
    requires PackagesRun(env, username, userCulture, setupDescription, registration).result.Success?
    ensures var urls := GetPackageUrls(setupDescription, ConfiguredServerUrl(env.config), env.setupDescription, env.toInt);
      var events := PackagesRun(env, username, userCulture, setupDescription, registration).events;
      && urls.Success?
      && |PreInstalls(events)| >= |urls.value|
      && (forall i :: 0 <= i < |urls.value| ==>
            PreInstalls(events)[i] == (urls.value[i], Concat(env.fetch(urls.value[i]).chunks)))
      && events[|events| - 1] == Register(registration, "")
  {
    var urls := GetPackageUrls(setupDescription, ConfiguredServerUrl(env.config), env.setupDescription, env.toInt).value;
    var downloads := DownloadFirst(env, urls, |urls|);
    DownloadFirstCorrect(env, urls, |urls|);
    var contents := downloads.result.value;
    var installs := InstallFirst(env, urls, contents, |urls|);
    InstallFirstInOrder(env, urls, contents, |urls|);
    var finish := FinishRun(env, username, userCulture, registration);
    var events := PackagesRun(env, username, userCulture, setupDescription, registration).events;
    assert events == downloads.events + installs.events + finish.events;
    PreInstallsAppend(downloads.events + installs.events, finish.events);
    PreInstallsAppend(downloads.events, installs.events);
    NoPreInstallInDownloads(downloads.events);
    assert Zip(urls, contents)[..|urls|] == Zip(urls, contents);
    assert PreInstalls(events)[..|urls|] == Zip(urls, contents);
  }

  lemma {:induction false} NoPreInstallInDownloads(events: seq<Event>)
    requires forall i :: 0 <= i < |events| ==> events[i].Download?
    ensures PreInstalls(events) == []
  {
    if events != [] {
      NoPreInstallInDownloads(events[..|events| - 1]);
    }
  }

  // ---------------------------------------------------------------------------
  // The facade
  // ---------------------------------------------------------------------------

  class SetupService {
    const env: Environment
    /** ApplicationOnlineHandlerFacade's state. */
    var online: bool
    /** `_packageServerUrl`, null until first read. */
    var packageServerUrl: Option<string>
    ghost var trace: seq<Event>

    /** The cached URL is the configured one, and every delivery reads like a stream. */
    ghost predicate Valid()
      reads this
    {
      && (packageServerUrl.Some? ==> ConfiguredServerUrl(env.config) == Success(packageServerUrl.value))
      && forall url :: ValidDelivery(env.fetch(url))
    }

    constructor(env: Environment, online: bool)
      requires forall url :: ValidDelivery(env.fetch(url))
      ensures Valid() && this.env == env && this.online == online && packageServerUrl == None && trace == []
    {
      this.env := env;
      this.online := online;
      packageServerUrl := None;
      trace := [];
    }

    /** Lines 60-76: the cache is filled on first success and never changes the answer. */
    method PackageServerUrl() returns (r: Result<string, Exception>)
      requires Valid()
      modifies this
      ensures Valid() && r == ConfiguredServerUrl(env.config)
      ensures r.Success? ==> packageServerUrl == Some(r.value)
      ensures r.Failure? ==> packageServerUrl == old(packageServerUrl)
      ensures online == old(online) && trace == old(trace)
    {
      if packageServerUrl.None? {
        var url := ConfiguredServerUrl(env.config);
        if url.Failure? {
          return url;
        }
        packageServerUrl := Some(url.value);
      }
      r := Success(packageServerUrl.value);
    }

    /** Lines 333-364. */
    method CreateClient() returns (r: Result<ClientBinding, Exception>)
      requires Valid()
      modifies this
      ensures Valid() && online == old(online) && trace == old(trace)
      ensures r.Success? <==> ConfiguredServerUrl(env.config).Success?
      ensures r.Success? ==> r.value == CreateClientBinding(ConfiguredServerUrl(env.config).value, env.isDebugBuild)
      ensures r.Failure? ==> r.error == ConfiguredServerUrl(env.config).error
    {
      var url :- PackageServerUrl();
      r := Success(CreateClientBinding(url, env.isDebugBuild));
    }

    method Perform(op: Operation) returns (r: Result<(), Exception>)
      modifies this
      ensures r == PerformRun(env, op).result && trace == old(trace) + PerformRun(env, op).events
      ensures online == old(online) && packageServerUrl == old(packageServerUrl)
    {
      trace := trace + [Event.Perform(op)];
      r := env.perform(op);
    }

    /** Lines 222-227. */
    method RegisterSetup(registration: Registration, exception: string) returns (r: Result<(), Exception>)
      requires Valid()
      modifies this
      ensures Valid() && online == old(online)
      ensures r == RegisterRun(env, registration, exception).result
      ensures trace == old(trace) + RegisterRun(env, registration, exception).events
    {
      var client := CreateClient();
      if client.Failure? {
        return Failure(client.error);
      }
      trace := trace + [Register(registration, exception)];
      r := env.registerSetup(registration, exception);
    }

    /** Lines 260-290: copy the response stream into a memory stream chunk by chunk. */
    method DownloadPackage(packageUrl: string) returns (r: Result<MemoryStream, Exception>)
      requires Valid()
      modifies this
      ensures Valid() && online == old(online) && packageServerUrl == old(packageServerUrl)
      ensures trace == old(trace) + DownloadRun(env, packageUrl).events
      ensures r.Success? <==> DownloadRun(env, packageUrl).result.Success?
      ensures r.Success? ==> fresh(r.value) && r.value.position == 0
      ensures r.Success? ==> r.value.content == DownloadRun(env, packageUrl).result.value
      ensures r.Failure? ==> r.error == DownloadRun(env, packageUrl).result.error
    {
      var packageStream := new MemoryStream();
      var delivery := env.fetch(packageUrl);
      trace := trace + [Download(packageUrl)];
      var inputStream := new ResponseStream(delivery);
      var buffer := new Byte[BufferSize];
      while true
        modifies packageStream, inputStream, buffer
        invariant inputStream.next <= |delivery.chunks|
        invariant packageStream.content == Concat(delivery.chunks[..inputStream.next])
        invariant packageStream.position == |packageStream.content|
        decreases |delivery.chunks| - inputStream.next
      {
        var read := inputStream.Read(buffer);
        if read.Failure? {
          if read.error.Broken? {
            return Failure(DownloadFailed(packageUrl, read.error.error));
          }
          break;
        }
        if read.value == 0 {
          break;
        }
        ghost var n := inputStream.next;
        packageStream.Write(buffer, read.value);
        assert delivery.chunks[..n][..n - 1] == delivery.chunks[..n - 1];
      }
      assert delivery.chunks[..inputStream.next] == delivery.chunks;
      packageStream.Seek(0);
      r := Success(packageStream);
    }

    /** Lines 293-328. */
    method InstallPackage(packageUrl: string, packageStream: MemoryStream) returns (r: Result<bool, Exception>)
      modifies this
      ensures r == InstallPackageRun(env, packageUrl, packageStream.content).result
      ensures trace == old(trace) + InstallPackageRun(env, packageUrl, packageStream.content).events
      ensures online == old(online) && packageServerUrl == old(packageServerUrl)
    {
      trace := trace + [PreInstall(packageUrl, packageStream.content)];
      var process := env.packageManager(packageStream.content);
      ghost var phases := InstallPhases(packageUrl, packageStream.content, process);
      if process.Failure? {
        return Failure(process.error);
      }
      if |process.value.preInstallValidationResult| > 0 {
        var logged := LogValidationResults(process.value.preInstallValidationResult);
        return Failure(logged.error);
      }
      assert phases[1..] == [Phase(Validate(packageUrl), process.value.validate), Phase(Install(packageUrl), process.value.install)];
      assert phases[1..][1..] == [Phase(Install(packageUrl), process.value.install)];
      trace := trace + [Validate(packageUrl)];
      if process.value.validate.Failure? {
        assert RunPhases(phases[1..]) == Run(Failure(process.value.validate.error), [Validate(packageUrl)]);
        return Failure(process.value.validate.error);
      }
      var validationResult := process.value.validate.value;
      if |validationResult| > 0 {
        assert RunPhases(phases[1..]) == Run(PhaseFailure(process.value.validate), [Validate(packageUrl)]);
        var logged := LogValidationResults(validationResult);
        return Failure(logged.error);
      }
      trace := trace + [Install(packageUrl)];
      if process.value.install.Failure? {
        assert RunPhases(phases[1..][1..]) == Run(Failure(process.value.install.error), [Install(packageUrl)]);
        return Failure(process.value.install.error);
      }
      var installResult := process.value.install.value;
      if |installResult| > 0 {
        assert RunPhases(phases[1..][1..]) == Run(PhaseFailure(process.value.install), [Install(packageUrl)]);
        var logged := LogValidationResults(installResult);
        return Failure(logged.error);
      }
      assert phases[1..][1..][1..] == [];
      assert RunPhases(phases[1..][1..]) == Run(Success(()), [Install(packageUrl)]);
      assert RunPhases(phases[1..]) == Run(Success(()), [Validate(packageUrl), Install(packageUrl)]);
      r := Success(true);
    }

    /** Lines 231-257. */
    method InstallLanguagePackage(userCulture: string) returns (r: Result<bool, Exception>)
      requires Valid()
      modifies this
      ensures Valid() && online == old(online)
      ensures r == LanguageRun(env, userCulture).result
      ensures trace == old(trace) + LanguageRun(env, userCulture).events
    {
      var client :- CreateClient();
      var languagePackagesXml :- env.languagePackages;
      var url :- LanguagePackageUrl(languagePackagesXml, userCulture);
      if url.None? {
        return Success(false);
      }
      var server := PackageServerUrl();
      var packageUrl := FormatPackageUrl(server.value, url);
      var packageStream :- DownloadPackage(packageUrl);
      var installed := InstallPackage(packageUrl, packageStream);
      AppendAssociative(old(trace), DownloadRun(env, packageUrl).events,
                        InstallPackageRun(env, packageUrl, packageStream.content).events);
      r := if installed.Failure? then Failure(installed.error) else Success(true);
    }

    /** Lines 368-393, enumerated to the end by `ToArray()`. */
    method GetPackageUrls(setupDescription: XElement) returns (r: Result<seq<string>, Exception>)
      requires Valid()
      modifies this
      ensures Valid() && online == old(online) && trace == old(trace)
      ensures r == SetupQueries.GetPackageUrls(setupDescription, ConfiguredServerUrl(env.config), env.setupDescription, env.toInt)
    {
      var maxkey :- MaxKey(setupDescription, env.toInt);
      var client :- CreateClient();
      var originalSetupDescription :- env.setupDescription;
      var element :- ServerNode(originalSetupDescription, maxkey, env.toInt);
      var server := PackageServerUrl();
      r := PackageUrls(DescendantsNamed(setupDescription, PackageElementName), element, server.value);
    }

    /** Lines 103-114. */
    method CreateAccounts(username: string, password: string, email: string, locale: string, userCulture: string)
      returns (r: Result<(), Exception>)
      modifies this
      ensures online == old(online) && packageServerUrl == old(packageServerUrl)
      ensures r == AccountsRun(env, username, password, email, locale, userCulture).result
      ensures trace == old(trace) + AccountsRun(env, username, password, email, locale, userCulture).events
    {
      // What has happened after each call, as far as AccountsRun is concerned.
      ghost var started := PerformRun(env, ApplicationStartInitialize);
      ghost var added := AndThen(started, PerformRun(env, AddLocale(locale)));
      ghost var localized := AndThen(added, PerformRun(env, SetDefaultLocale(locale)));
      ghost var administrator := AndThen(localized, PerformRun(env, CreateAdministrator(username, password, email)));
      ghost var created := AndThen(administrator, PerformRun(env, ValidateUser(username, password)));
      assert AccountsRun(env, username, password, email, locale, userCulture)
        == AndThen(created, PerformRun(env, SetUserCulture(username, userCulture)));
      var done :- Perform(ApplicationStartInitialize);
      done :- Perform(AddLocale(locale));
      done :- Perform(SetDefaultLocale(locale));
      done :- Perform(CreateAdministrator(username, password, email));
      done :- Perform(ValidateUser(username, password));
      r := Perform(SetUserCulture(username, userCulture));
    }

    /** Lines 121-124, one package after the other. */
    method DownloadPackages(packageUrls: seq<string>) returns (r: Result<array<MemoryStream?>, Exception>)
      requires Valid()
      modifies this
      ensures Valid() && online == old(online) && packageServerUrl == old(packageServerUrl)
      ensures trace == old(trace) + DownloadFirst(env, packageUrls, |packageUrls|).events
      ensures r.Success? <==> DownloadFirst(env, packageUrls, |packageUrls|).result.Success?
      ensures r.Failure? ==> r.error == DownloadFirst(env, packageUrls, |packageUrls|).result.error
      ensures r.Success? ==> fresh(r.value) && r.value.Length == |packageUrls|
      ensures r.Success? ==> forall j :: 0 <= j < |packageUrls| ==>
        r.value[j] != null && r.value[j].content == DownloadFirst(env, packageUrls, |packageUrls|).result.value[j]
    {
      var packages := new MemoryStream?[|packageUrls|];
      ghost var t0 := trace;
      ghost var contents: seq<seq<Byte>> := [];
      for i := 0 to |packageUrls|
        invariant Valid() && online == old(online) && packageServerUrl == old(packageServerUrl)
        invariant DownloadFirst(env, packageUrls, i).result == Success(contents)
        invariant trace == t0 + DownloadFirst(env, packageUrls, i).events
        invariant forall j :: 0 <= j < i ==> packages[j] != null && packages[j].content == contents[j]
      {
        ghost var before := DownloadFirst(env, packageUrls, i).events;
        var package := DownloadPackage(packageUrls[i]);
        AppendAssociative(t0, before, DownloadRun(env, packageUrls[i]).events);
        if package.Failure? {
          DownloadFailureStays(env, packageUrls, i + 1, |packageUrls|);
          return Failure(package.error);
        }
        packages[i] := package.value;
        contents := contents + [package.value.content];
      }
      r := Success(packages);
    }

    /** Lines 126-130: the packages installed in index order. */
    method InstallDownloaded(packageUrls: seq<string>, packages: array<MemoryStream?>, ghost contents: seq<seq<Byte>>)
      returns (r: Result<(), Exception>)
      requires packages.Length == |packageUrls| == |contents|
      requires forall j :: 0 <= j < |packageUrls| ==> packages[j] != null && packages[j].content == contents[j]
      modifies this
      ensures online == old(online) && packageServerUrl == old(packageServerUrl)
      ensures r == InstallFirst(env, packageUrls, contents, |packageUrls|).result
      ensures trace == old(trace) + InstallFirst(env, packageUrls, contents, |packageUrls|).events
    {
      ghost var t0 := trace;
      ghost var runs := InstallRuns(env, packageUrls, contents);
      for i := 0 to |packageUrls|
        invariant online == old(online) && packageServerUrl == old(packageServerUrl)
        invariant Sequenced(runs, i).result.Success?
        invariant trace == t0 + Sequenced(runs, i).events
      {
        ghost var before := Sequenced(runs, i).events;
        var installed := InstallAt(packageUrls, packages, contents, i);
        AppendAssociative(t0, before, runs[i].events);
        if installed.Failure? {
          SequencedFailureStays(runs, i + 1, |packageUrls|);
          return Failure(installed.error);
        }
      }
      r := Success(());
    }

    /** Lines 126-130, the loop body for package i. */
    method InstallAt(packageUrls: seq<string>, packages: array<MemoryStream?>, ghost contents: seq<seq<Byte>>, i: nat)
      returns (installed: Result<bool, Exception>)
      requires packages.Length == |packageUrls| == |contents| && i < |packageUrls|
      requires packages[i] != null && packages[i].content == contents[i]
      modifies this
      ensures online == old(online) && packageServerUrl == old(packageServerUrl)
      ensures installed == InstallRuns(env, packageUrls, contents)[i].result
      ensures trace == old(trace) + InstallRuns(env, packageUrls, contents)[i].events
    {
      installed := InstallPackage(packageUrls[i], packages[i]);
    }

    /** Lines 132-136. */
    method Finish(username: string, userCulture: string, registration: Registration) returns (r: Result<(), Exception>)
      requires Valid()
      modifies this
      ensures Valid() && online == old(online)
      ensures r == FinishRun(env, username, userCulture, registration).result
      ensures trace == old(trace) + FinishRun(env, username, userCulture, registration).events
    {
      var translationExists :- InstallLanguagePackage(userCulture);
      var uiCulture := if translationExists then userCulture else env.defaultCulture;
      ghost var language := LanguageRun(env, userCulture).events;
      var uiSet :- Perform(SetConsoleUiLanguage(username, uiCulture));
      ghost var uiEvents := PerformRun(env, SetConsoleUiLanguage(username, uiCulture)).events;
      r := RegisterSetup(registration, "");
      AppendAssociative(old(trace), language, uiEvents);
      AppendAssociative(old(trace), language + uiEvents, RegisterRun(env, registration, "").events);
      AppendAssociative(language, uiEvents, RegisterRun(env, registration, "").events);
    }

    /** Lines 118-136. */
    method InstallPackages(username: string, userCulture: string, setupDescription: XElement, registration: Registration)
      returns (r: Result<(), Exception>)
      requires Valid()
      modifies this
      ensures Valid() && online == old(online)
      ensures r == PackagesRun(env, username, userCulture, setupDescription, registration).result
      ensures trace == old(trace) + PackagesRun(env, username, userCulture, setupDescription, registration).events
    {
      var packageUrls :- GetPackageUrls(setupDescription);
      ghost var downloads := DownloadFirst(env, packageUrls, |packageUrls|);
      var packages :- DownloadPackages(packageUrls);
      ghost var installs := InstallFirst(env, packageUrls, downloads.result.value, |packageUrls|);
      var installed := InstallDownloaded(packageUrls, packages, downloads.result.value);
      AppendAssociative(old(trace), downloads.events, installs.events);
      if installed.Failure? {
        return Failure(installed.error);
      }
      ghost var finish := FinishRun(env, username, userCulture, registration);
      r := Finish(username, userCulture, registration);
      AppendAssociative(old(trace), downloads.events + installs.events, finish.events);
    }

    /** Lines 98-138, the try block. */
    method SetupBody(username: string, password: string, email: string, language: string, consoleLanguage: string,
                     setupDescription: XElement, registration: Registration) returns (r: Result<(), Exception>)
      requires Valid()
      modifies this
      ensures Valid() && online == old(online)
      ensures r == SetupBodyRun(env, username, password, email, language, consoleLanguage, setupDescription, registration).result
      ensures trace == old(trace) + SetupBodyRun(env, username, password, email, language, consoleLanguage, setupDescription, registration).events
    {
      var locale :- env.culture(language);
      var userCulture :- env.culture(consoleLanguage);
      ghost var accounts := AccountsRun(env, username, password, email, locale, userCulture);
      var done :- CreateAccounts(username, password, email, locale, userCulture);
      ghost var packages := PackagesRun(env, username, userCulture, setupDescription, registration);
      r := InstallPackages(username, userCulture, setupDescription, registration);
      AppendAssociative(old(trace), accounts.events, packages.events);
    }

    /** Lines 81-155. */
    method SetUp(setupDescriptionXml: string, username: string, password: string, email: string, language: string,
                 consoleLanguage: string, newsletter: bool) returns (r: Result<(), Exception>)
      requires Valid()
      modifies this
      ensures Valid()
      ensures var o := SetUpRun(env, setupDescriptionXml, username, password, email, language, consoleLanguage, newsletter);
        r == o.run.result && trace == old(trace) + o.run.events && online == o.online
    {
      online := false;
      trace := trace + [Offline];
      var lowerUsername := Text.ToLowerInvariant(username);
      var setupDescription :- env.parseXml(setupDescriptionXml);
      var registration := Registration(email, newsletter, consoleLanguage, language, setupDescription);
      var body := SetupBody(lowerUsername, password, email, language, consoleLanguage, setupDescription, registration);
      ghost var bodyRun := SetupBodyRun(env, lowerUsername, password, email, language, consoleLanguage,
                                        setupDescription, registration);
      AppendAssociative(old(trace), [Offline], bodyRun.events);
      ghost var events := [Offline] + bodyRun.events;
      if body.Failure? {
        ghost var register := RegisterRun(env, registration, ExceptionText(body.error));
        var registered := RegisterSetup(registration, ExceptionText(body.error));
        AppendAssociative(old(trace), events, register.events);
        events := events + register.events;
        if registered.Failure? {
          return Failure(registered.error);
        }
        if env.isDebugBuild {
          online := true;
          trace := trace + [Online];
          AppendAssociative(old(trace), events, [Online]);
          return Failure(body.error);
        }
      }
      online := true;
      trace := trace + [Online];
      AppendAssociative(old(trace), events, [Online]);
      r := Success(());
    }

    /** Lines 81-155 with the site back online after every outcome, as a finally block around the
        whole method would make it; the debug branch at line 148 already does so before rethrowing. */
    method SetUpAlwaysOnline(setupDescriptionXml: string, username: string, password: string, email: string,
                             language: string, consoleLanguage: string, newsletter: bool) returns (r: Result<(), Exception>)
      requires Valid()
      modifies this
      ensures Valid() && online
      ensures var o := SetUpRun(env, setupDescriptionXml, username, password, email, language, consoleLanguage, newsletter);
        r == o.run.result && trace == old(trace) + o.run.events + (if o.online then [] else [Online])
      ensures |trace| > |old(trace)| + 1 && trace[|old(trace)|] == Offline && trace[|trace| - 1] == Online
    {
      r := SetUp(setupDescriptionXml, username, password, email, language, consoleLanguage, newsletter);
      ghost var o := SetUpRun(env, setupDescriptionXml, username, password, email, language, consoleLanguage, newsletter);
      SetUpRunOffline(env, setupDescriptionXml, username, password, email, language, consoleLanguage, newsletter);
      if o.online {
        SetUpRunOnline(env, setupDescriptionXml, username, password, email, language, consoleLanguage, newsletter);
      }
      if !online {
        online := true;
        trace := trace + [Online];
      }
      IndexAfter(old(trace), o.run.events, if o.online then [] else [Online]);
    }
  }

  /** A malformed setup description throws at line 87, before the try block, so nothing turns
      the application back online. */
  method MalformedDescriptionLeavesOffline() returns (online: bool)
    ensures !online
  {
    var env := Environment(
      Failure(NullReference), _ => Failure(Format("<")), _ => None, c => Success(c),
      _ => Success(()), Failure(NullReference), Failure(NullReference), (_, _) => Success(()),
      _ => Delivery([], EndOfStream), _ => Failure(NullReference), "en-US", false);
    var service := new SetupService(env, true);
    var r := service.SetUp("<", "admin", "secret", "admin@example.com", "en-US", "en-US", false);
    online := service.online;
  }

  /** Once the first n downloads fail, the first m fail the same way. */
  lemma {:induction false} DownloadFailureStays(env: Environment, urls: seq<string>, n: nat, m: nat)
    requires n <= m <= |urls|
    requires DownloadFirst(env, urls, n).result.Failure?
    ensures DownloadFirst(env, urls, m) == DownloadFirst(env, urls, n)
    decreases m
  {
    if m > n {
      DownloadFailureStays(env, urls, n, m - 1);
    }
  }

  /** Once the first n runs fail, the first m fail the same way. */
  lemma {:induction false} SequencedFailureStays(runs: seq<Run<bool>>, n: nat, m: nat)
    requires n <= m <= |runs|
    requires Sequenced(runs, n).result.Failure?
    ensures Sequenced(runs, m) == Sequenced(runs, n)
    decreases m
  {
    if m > n {
      SequencedFailureStays(runs, n, m - 1);
    }
  }
}
