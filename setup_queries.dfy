/**
 * The queries SetupServiceFacade runs over setup descriptions: the caller's
 * maximum `key`, the server node with that key, the URL of every package the
 * caller asks for, the language-package lookup, the configured package-server
 * URL and the SOAP binding built from it.
 *
 * The LINQ operators run over lazy sequences, so a query is modelled by the
 * evaluation of each element in document order (`Eval`): the element is
 * filtered out, selected with a value, or throws. `Single`, `SingleOrDefault`
 * and `FirstOrDefault` stop as soon as their answer is known, the way the
 * .NET Framework implements them.
 */
module SetupQueries {
  import opened Wrappers
  import opened Xml
  import Text

  const XmlNamespace: string := "urn:Composte.C1.Setup"
  const PackageElementName: XName := XName(XmlNamespace, "package")
  const UrlAttributeName: XName := Local("url")
  const IdAttributeName: XName := Local("id")
  const KeyAttributeName: XName := Local("key")

  const SetupServicePath: string := "/Setup/Setup.asmx"
  const MalformedMessage: string := "Setup XML malformed"
  const NoElementsMessage: string := "Sequence contains no elements"
  const MoreThanOneMessage: string := "Sequence contains more than one element"

  /** The exceptions the facade can see. `External` stands for one raised by code outside this model. */
  datatype Exception =
    | InvalidOperation(message: string)
    | NullReference
    | Format(text: string)
    | External(typeName: string, message: string)
    | DownloadFailed(url: string, inner: Exception)

  /** `Exception.ToString()`: the type name, the message and the inner exception; never empty. */
  function ExceptionText(e: Exception): (s: string)
    ensures |s| > 0
  {
    match e
    case InvalidOperation(m) => "System.InvalidOperationException: " + m
    case NullReference => "System.NullReferenceException: Object reference not set to an instance of an object."
    case Format(t) => "System.FormatException: Input string was not in a correct format: " + t
    case External(n, m) => n + ": " + m + " "
    case DownloadFailed(url, inner) =>
      "System.InvalidOperationException: Failed to download package '" + url + "' ---> " + ExceptionText(inner)
  }

  // ---------------------------------------------------------------------------
  // Lazy LINQ queries
  // ---------------------------------------------------------------------------

  /** What a Where/Select pipeline makes of one element: dropped, selected with a value, or thrown. */
  type Eval<-T, U> = T -> Result<Option<U>, Exception>

  /** The values a query selects when it is enumerated to the end, or the first exception. */
  function SelectAll<T, U>(items: seq<T>, eval: Eval<T, U>): (r: Result<seq<U>, Exception>)
  {
    if items == [] then Success([])
    else
      var head :- eval(items[0]);
      var rest :- SelectAll(items[1..], eval);
      Success(if head.Some? then [head.value] + rest else rest)
  }

  /** `SingleOrDefault()` over the query, with `found` the value already selected, if any. */
  function QuerySingle<T, U>(items: seq<T>, eval: Eval<T, U>, found: Option<U>): (r: Result<Option<U>, Exception>)
  {
    if items == [] then Success(found)
    else
      var head :- eval(items[0]);
      if head.None? then QuerySingle(items[1..], eval, found)
      else if found.Some? then Failure(InvalidOperation(MoreThanOneMessage))
      else QuerySingle(items[1..], eval, head)
  }

  /** `FirstOrDefault()` over the query. */
  function QueryFirst<T, U>(items: seq<T>, eval: Eval<T, U>): (r: Result<Option<U>, Exception>)
  {
    if items == [] then Success(None)
    else
      var head :- eval(items[0]);
      if head.Some? then Success(head) else QueryFirst(items[1..], eval)
  }

  /** When every element evaluates, SingleOrDefault gives nothing for no value, the value for one,
      and throws for two or more. */
  lemma {:induction false} QuerySingleCounts<T, U>(items: seq<T>, eval: Eval<T, U>, found: Option<U>, values: seq<U>)
    requires SelectAll(items, eval) == Success(values)
    ensures var all := if found.Some? then [found.value] + values else values;
      QuerySingle(items, eval, found) ==
        if |all| == 0 then Success(None)
        else if |all| == 1 then Success(Some(all[0]))
        else Failure(InvalidOperation(MoreThanOneMessage))
  {
    if items != [] {
      var head := eval(items[0]).value;
      var rest := SelectAll(items[1..], eval).value;
      if head.None? {
        QuerySingleCounts(items[1..], eval, found, values);
      } else if found.None? {
        QuerySingleCounts(items[1..], eval, head, rest);
      }
    }
  }

  /** SingleOrDefault stops at the second value: what comes after it is never evaluated. */
  lemma {:induction false} QuerySingleStopsAtSecond<T, U>(items: seq<T>, eval: Eval<T, U>, found: Option<U>, n: nat, values: seq<U>)
    requires n <= |items| && SelectAll(items[..n], eval) == Success(values)
    requires |values| + (if found.Some? then 1 else 0) >= 2
    ensures QuerySingle(items, eval, found) == Failure(InvalidOperation(MoreThanOneMessage))
  {
    assert n > 0;
    assert items[..n][0] == items[0] && items[..n][1..] == items[1..][..n - 1];
    var head := eval(items[0]).value;
    var rest := SelectAll(items[1..][..n - 1], eval).value;
    if head.None? {
      QuerySingleStopsAtSecond(items[1..], eval, found, n - 1, values);
    } else if found.None? {
      QuerySingleStopsAtSecond(items[1..], eval, head, n - 1, rest);
    }
  }

  /** FirstOrDefault gives the first value selected and evaluates nothing after it. */
  lemma {:induction false} QueryFirstStopsAtFirst<T, U>(items: seq<T>, eval: Eval<T, U>, n: nat, values: seq<U>)
    requires n <= |items| && SelectAll(items[..n], eval) == Success(values) && |values| > 0
    ensures QueryFirst(items, eval) == Success(Some(values[0]))
  {
    assert n > 0;
    assert items[..n][0] == items[0] && items[..n][1..] == items[1..][..n - 1];
    var head := eval(items[0]).value;
    if head.None? {
      QueryFirstStopsAtFirst(items[1..], eval, n - 1, values);
    }
  }

  /** When every element evaluates, FirstOrDefault gives the first value selected, or nothing. */
  lemma {:induction false} QueryFirstAgrees<T, U>(items: seq<T>, eval: Eval<T, U>, values: seq<U>)
    requires SelectAll(items, eval) == Success(values)
    ensures QueryFirst(items, eval) == if values == [] then Success(None) else Success(Some(values[0]))
  {
    if items != [] {
      if eval(items[0]).value.None? {
        QueryFirstAgrees(items[1..], eval, values);
      }
    }
  }

  // ---------------------------------------------------------------------------
  // GetPackageUrls
  // ---------------------------------------------------------------------------

  /** `(int)attribute`: XmlConvert.ToInt32 on the attribute's text, null if it is not an Int32. */
  type ParseInt = string -> Option<int>

  /** Line 370: `Attributes("key").Select(f => (int)f)` on one element. */
  function KeyOf(toInt: ParseInt): Eval<XElement, int>
  {
    e =>
      match AttributeValue(e, KeyAttributeName)
      case None => Success(None)
      case Some(text) => if toInt(text).None? then Failure(Format(text)) else Success(Some(toInt(text).value))
  }

  function MaxOf(values: seq<int>): (m: int)
    requires |values| > 0
    ensures m in values && forall v :: v in values ==> v <= m
  {
    if |values| == 1 then values[0]
    else
      var rest := MaxOf(values[1..]);
      assert forall v :: v in values ==> v == values[0] || v in values[1..];
      if values[0] >= rest then values[0] else rest
  }

  /** Line 370: the largest `key` of the caller's description; it throws when there is none
      or when a key is not an integer. */
  function MaxKey(setupDescription: XElement, toInt: ParseInt): (r: Result<int, Exception>)
  {
    var keys :- SelectAll(Descendants(setupDescription), KeyOf(toInt));
    if keys == [] then Failure(InvalidOperation(NoElementsMessage)) else Success(MaxOf(keys))
  }

  /** Line 378: elements whose key equals `maxkey` are selected, the others dropped. */
  function KeyEquals(toInt: ParseInt, maxkey: int): Eval<XElement, XElement>
  {
    e =>
      match AttributeValue(e, KeyAttributeName)
      case None => Success(None)
      case Some(text) =>
        if toInt(text).None? then Failure(Format(text))
        else Success(if toInt(text).value == maxkey then Some(e) else None)
  }

  /** Lines 376-379: the single server node whose key is `maxkey`. */
  function ServerNode(original: XElement, maxkey: int, toInt: ParseInt): (r: Result<XElement, Exception>)
  {
    var node :- QuerySingle(Descendants(original), KeyEquals(toInt, maxkey), None);
    if node.None? then Failure(InvalidOperation(NoElementsMessage)) else Success(node.value)
  }

  /** Lines 386-389: the url of the server package with the id; a server package without an id,
      or a matching one without a url, throws. */
  function UrlOfId(id: string): Eval<XElement, string>
  {
    elm =>
      match AttributeValue(elm, IdAttributeName)
      case None => Failure(NullReference)
      case Some(v) =>
        if v != id then Success(None)
        else if AttributeValue(elm, UrlAttributeName).None? then Failure(NullReference)
        else Success(Some(AttributeValue(elm, UrlAttributeName).value))
  }

  function PackageUrl(element: XElement, id: string): (r: Result<Option<string>, Exception>)
  {
    QuerySingle(DescendantsNamed(element, PackageElementName), UrlOfId(id), None)
  }

  /** `string.Format("{0}{1}", server, url)`: a null url formats as nothing. */
  function FormatPackageUrl(server: string, url: Option<string>): string
  {
    server + (if url.Some? then url.value else "")
  }

  /** Lines 381-392 for the caller's package elements `packages`. */
  function PackageUrls(packages: seq<XElement>, element: XElement, server: string): (r: Result<seq<string>, Exception>)
  {
    if packages == [] then Success([])
    else
      var id := AttributeValue(packages[0], IdAttributeName);
      if id.None? then Failure(InvalidOperation(MalformedMessage))
      else
        var url :- PackageUrl(element, id.value);
        var rest :- PackageUrls(packages[1..], element, server);
        Success([FormatPackageUrl(server, url)] + rest)
  }

  /** Lines 368-393, as enumerated by `ToArray()` at line 118. `server` is PackageServerUrl (read by
      CreateClient) and `original` the answer of the SOAP call GetSetupDescription. */
  function GetPackageUrls(setupDescription: XElement, server: Result<string, Exception>,
                          original: Result<XElement, Exception>, toInt: ParseInt): (r: Result<seq<string>, Exception>)
  {
    var maxkey :- MaxKey(setupDescription, toInt);
    var serverUrl :- server;
    var description :- original;
    var element :- ServerNode(description, maxkey, toInt);
    PackageUrls(DescendantsNamed(setupDescription, PackageElementName), element, serverUrl)
  }

  /** The largest key is one of the caller's keys and no key exceeds it; it exists exactly
      when some key is present and every key parses. */
  lemma MaxKeyCorrect(setupDescription: XElement, toInt: ParseInt)
    ensures var r := MaxKey(setupDescription, toInt);
      && (r.Success? <==> SelectAll(Descendants(setupDescription), KeyOf(toInt)).Success? &&
                           SelectAll(Descendants(setupDescription), KeyOf(toInt)).value != [])
      && (r.Success? ==> var keys := SelectAll(Descendants(setupDescription), KeyOf(toInt)).value;
            r.value in keys && forall k :: k in keys ==> k <= r.value)
      && (SelectAll(Descendants(setupDescription), KeyOf(toInt)) == Success([]) ==>
            r == Failure(InvalidOperation(NoElementsMessage)))
  {
  }

  /** When every key parses, the server node is the one element keyed `maxkey`; no such element
      and several such elements both throw. */
  lemma ServerNodeCorrect(original: XElement, maxkey: int, toInt: ParseInt, matches: seq<XElement>)
    requires SelectAll(Descendants(original), KeyEquals(toInt, maxkey)) == Success(matches)
    ensures var r := ServerNode(original, maxkey, toInt);
      && (r.Success? <==> |matches| == 1)
      && (r.Success? ==> r.value == matches[0])
      && (|matches| == 0 ==> r == Failure(InvalidOperation(NoElementsMessage)))
      && (|matches| >= 2 ==> r == Failure(InvalidOperation(MoreThanOneMessage)))
  {
    QuerySingleCounts(Descendants(original), KeyEquals(toInt, maxkey), None, matches);
  }

  /** One URL per caller package element, in document order, each the server URL followed by the
      url of the server package with the same id (nothing when no server package has it). */
  lemma {:induction false} PackageUrlsCorrect(packages: seq<XElement>, element: XElement, server: string)
    ensures var r := PackageUrls(packages, element, server);
      && (r.Success? <==> forall i :: 0 <= i < |packages| ==>
            AttributeValue(packages[i], IdAttributeName).Some? &&
            PackageUrl(element, AttributeValue(packages[i], IdAttributeName).value).Success?)
      && (r.Success? ==> |r.value| == |packages| && forall i :: 0 <= i < |packages| ==>
            r.value[i] == FormatPackageUrl(server, PackageUrl(element, AttributeValue(packages[i], IdAttributeName).value).value))
  {
    if packages != [] {
      var tail := packages[1..];
      PackageUrlsCorrect(tail, element, server);
      var r := PackageUrls(packages, element, server);
      var id := AttributeValue(packages[0], IdAttributeName);
      if id.Some? && PackageUrl(element, id.value).Success? {
        var rest := PackageUrls(tail, element, server);
        assert r.Success? == rest.Success?;
        forall i | 1 <= i < |packages|
          ensures packages[i] == tail[i - 1]
        {
        }
        if r.Success? {
          assert r.value == [FormatPackageUrl(server, PackageUrl(element, id.value).value)] + rest.value;
        }
      }
    }
  }

  /** A caller package without an id throws "Setup XML malformed" unless an earlier package already threw. */
  lemma {:induction false} PackageWithoutIdIsMalformed(packages: seq<XElement>, element: XElement, server: string, n: nat)
    requires n < |packages| && AttributeValue(packages[n], IdAttributeName).None?
    requires PackageUrls(packages[..n], element, server).Success?
    ensures PackageUrls(packages, element, server) == Failure(InvalidOperation(MalformedMessage))
  {
    if n > 0 {
      assert packages[..n][1..] == packages[1..][..n - 1];
      assert packages[..n][0] == packages[0];
      PackageWithoutIdIsMalformed(packages[1..], element, server, n - 1);
    }
  }

  /** An id that two server packages carry throws, provided every earlier server package has an id. */
  lemma DuplicateIdThrows(element: XElement, id: string, n: nat, urls: seq<string>)
    requires n <= |DescendantsNamed(element, PackageElementName)|
    requires SelectAll(DescendantsNamed(element, PackageElementName)[..n], UrlOfId(id)) == Success(urls) && |urls| >= 2
    ensures PackageUrl(element, id) == Failure(InvalidOperation(MoreThanOneMessage))
  {
    QuerySingleStopsAtSecond(DescendantsNamed(element, PackageElementName), UrlOfId(id), None, n, urls);
  }

  /** An id no server package carries gives the bare server URL. */
  lemma UnmatchedIdGivesServerUrl(element: XElement, id: string, server: string)
    requires SelectAll(DescendantsNamed(element, PackageElementName), UrlOfId(id)) == Success([])
    ensures PackageUrl(element, id) == Success(None)
    ensures FormatPackageUrl(server, PackageUrl(element, id).value) == server
  {
    QuerySingleCounts(DescendantsNamed(element, PackageElementName), UrlOfId(id), None, []);
  }

  // ---------------------------------------------------------------------------
  // InstallLanguagePackage: the lookup
  // ---------------------------------------------------------------------------

  /** Lines 239-240: a `Language` element whose key is the culture name is selected with its url. */
  function LanguageUrl(cultureName: string): Eval<XElement, string>
  {
    f =>
      var key := AttributeValue(f, Local("key"));
      if key.None? || key.value != cultureName then Success(None)
      else if AttributeValue(f, UrlAttributeName).None? then Failure(NullReference)
      else Success(Some(AttributeValue(f, UrlAttributeName).value))
  }

  /** `langs[k]` is the first of `langs` whose key is the culture name. */
  predicate FirstWithKey(langs: seq<XElement>, k: int, cultureName: string)
  {
    && 0 <= k < |langs|
    && AttributeValue(langs[k], Local("key")) == Some(cultureName)
    && forall j :: 0 <= j < k ==> AttributeValue(langs[j], Local("key")) != Some(cultureName)
  }

  /** Lines 237-241: the url of the first `Language` element for the culture, or null. */
  function LanguagePackageUrl(languagePackages: XElement, cultureName: string): (r: Result<Option<string>, Exception>)
  {
    QueryFirst(DescendantsNamed(languagePackages, Local("Language")), LanguageUrl(cultureName))
  }

  /** Null exactly when no `Language` element has the culture's key; otherwise the url of the
      first one that has, and a missing url on that first one throws. */
  lemma LanguagePackageUrlCorrect(languagePackages: XElement, cultureName: string)
    ensures var langs := DescendantsNamed(languagePackages, Local("Language"));
      var r := LanguagePackageUrl(languagePackages, cultureName);
      && (r == Success(None) <==> forall i :: 0 <= i < |langs| ==> AttributeValue(langs[i], Local("key")) != Some(cultureName))
      && (forall k :: FirstWithKey(langs, k, cultureName) ==>
            r == (if AttributeValue(langs[k], UrlAttributeName).None? then Failure(NullReference)
                  else Success(AttributeValue(langs[k], UrlAttributeName))))
  {
    FirstLanguage(DescendantsNamed(languagePackages, Local("Language")), cultureName);
  }

  lemma FirstLanguage(langs: seq<XElement>, cultureName: string)
    ensures var r := QueryFirst(langs, LanguageUrl(cultureName));
      && (r == Success(None) <==> forall i :: 0 <= i < |langs| ==> AttributeValue(langs[i], Local("key")) != Some(cultureName))
      && (forall k :: FirstWithKey(langs, k, cultureName) ==>
            r == (if AttributeValue(langs[k], UrlAttributeName).None? then Failure(NullReference)
                  else Success(AttributeValue(langs[k], UrlAttributeName))))
  {
    NoLanguage(langs, cultureName);
    forall k | FirstWithKey(langs, k, cultureName)
      ensures QueryFirst(langs, LanguageUrl(cultureName)) ==
        (if AttributeValue(langs[k], UrlAttributeName).None? then Failure(NullReference)
         else Success(AttributeValue(langs[k], UrlAttributeName)))
    {
      LanguageAt(langs, cultureName, k);
    }
  }

  lemma {:induction false} NoLanguage(langs: seq<XElement>, cultureName: string)
    ensures QueryFirst(langs, LanguageUrl(cultureName)) == Success(None) <==>
      forall i :: 0 <= i < |langs| ==> AttributeValue(langs[i], Local("key")) != Some(cultureName)
  {
    if langs != [] {
      NoLanguage(langs[1..], cultureName);
      assert forall i :: 1 <= i < |langs| ==> langs[i] == langs[1..][i - 1];
    }
  }

  lemma {:induction false} LanguageAt(langs: seq<XElement>, cultureName: string, k: int)
    requires FirstWithKey(langs, k, cultureName)
    ensures QueryFirst(langs, LanguageUrl(cultureName)) ==
      (if AttributeValue(langs[k], UrlAttributeName).None? then Failure(NullReference)
       else Success(AttributeValue(langs[k], UrlAttributeName)))
  {
    if k > 0 {
      assert langs[k] == langs[1..][k - 1];
      assert forall j :: 0 <= j < k - 1 ==> langs[1..][j] == langs[j + 1];
      assert FirstWithKey(langs[1..], k - 1, cultureName);
      LanguageAt(langs[1..], cultureName, k - 1);
    }
  }

  // ---------------------------------------------------------------------------
  // PackageServerUrl and CreateClient
  // ---------------------------------------------------------------------------

  /** Lines 66-71: the `PackageServerUrl` attribute of the single `Composite.SetupConfiguration`
      element below the root of the configuration file (`config`, or the error loading it). */
  function ConfiguredServerUrl(config: Result<XElement, Exception>): (r: Result<string, Exception>)
  {
    var root :- config;
    var element :- QuerySingle(DescendantsNamed(root, Local("Composite.SetupConfiguration")), (e: XElement) => Success(Some(e)), None);
    if element.None? then Failure(InvalidOperation(NoElementsMessage))
    else if AttributeValue(element.value, Local("PackageServerUrl")).None? then Failure(NullReference)
    else Success(AttributeValue(element.value, Local("PackageServerUrl")).value)
  }

  /** A loaded configuration with exactly one setup element gives that element's attribute. */
  lemma ConfiguredServerUrlCorrect(root: XElement)
    ensures var nodes := DescendantsNamed(root, Local("Composite.SetupConfiguration"));
      var r := ConfiguredServerUrl(Success(root));
      && (|nodes| == 0 ==> r == Failure(InvalidOperation(NoElementsMessage)))
      && (|nodes| >= 2 ==> r == Failure(InvalidOperation(MoreThanOneMessage)))
      && (|nodes| == 1 ==>
            r == (if AttributeValue(nodes[0], Local("PackageServerUrl")).None? then Failure(NullReference)
                  else Success(AttributeValue(nodes[0], Local("PackageServerUrl")).value)))
  {
    var nodes := DescendantsNamed(root, Local("Composite.SetupConfiguration"));
    var eval: Eval<XElement, XElement> := (e: XElement) => Success(Some(e));
    SelectAllEverything(nodes, eval);
    QuerySingleCounts(nodes, eval, None, nodes);
  }

  lemma {:induction false} SelectAllEverything(items: seq<XElement>, eval: Eval<XElement, XElement>)
    requires forall e :: eval(e) == Success(Some(e))
    ensures SelectAll(items, eval) == Success(items)
  {
    if items != [] {
      SelectAllEverything(items[1..], eval);
      assert items == [items[0]] + items[1..];
    }
  }

  datatype SecurityMode = NoSecurity | Transport

  /** The BasicHttpBinding and endpoint CreateClient configures. Timeouts are in minutes. */
  datatype ClientBinding = ClientBinding(
    closeTimeout: int, openTimeout: int, receiveTimeout: int, sendTimeout: int,
    maxReceivedMessageSize: int, security: SecurityMode, endpoint: string)

  const Int32MaxValue: int := 0x7FFF_FFFF

  /** Lines 333-364 once PackageServerUrl is known. */
  function CreateClientBinding(packageServerUrl: string, isDebugBuild: bool): (b: ClientBinding)
    ensures var minutes := if isDebugBuild then 2 else 1;
      b.closeTimeout == minutes && b.openTimeout == minutes && b.receiveTimeout == minutes && b.sendTimeout == minutes
    ensures b.maxReceivedMessageSize == Int32MaxValue
    ensures b.security == Transport <==> Text.StartsWith(packageServerUrl, "https://")
    ensures Text.StartsWith(b.endpoint, packageServerUrl) && b.endpoint[|packageServerUrl|..] == SetupServicePath
  {
    var minutes := if isDebugBuild then 2 else 1;
    var security := if Text.StartsWith(packageServerUrl, "https://") then Transport else NoSecurity;
    ClientBinding(minutes, minutes, minutes, minutes, Int32MaxValue, security, packageServerUrl + SetupServicePath)
  }
}
