# Composite C1 core logic in Dafny

This project models four pieces of Composite C1 (C1 CMS) and proves what they promise.

- **First-run setup** (`SetupServiceFacade`): taking the site offline, creating the first locale and administrator, resolving the package URLs from the setup description, downloading the packages and installing them in order, the language pack, registering the setup and bringing the site back online. Files: `setup_facade.dfy` and `setup_queries.dfy`.
  - The facade is the class `SetupService`. It has the online flag, the lazily cached package server URL and a ghost trace of the outside calls it makes: offline, online, perform, download, pre-install, validate, install and register.
  - Every method of the class is proved against a specification function over an `Environment` value, of the form `Run(result, events)`. The environment holds what the setup cannot see: the configuration file, the SOAP server, HTTP, the package manager, the XML parser and the localisation and user services.
  - The XML queries (`GetPackageUrls`, the language-pack lookup and the configuration lookup) are functions over a small `XElement` tree (`xml.dfy`). A query that throws part-way (`Single`, `SingleOrDefault`, an explicit cast, `.Value` on a null attribute) is a `Result`.
- **Random default values** (`DefaultFieldRandomStringValueAttribute`), in `random_string_default.dfy`:
  - the attribute's length check;
  - the per-type property cache;
  - the fill loop over a data record's null fields;
  - the two-try collision check.
  The GUID stream and the "value in use" store queries are parameters.
- **LINQ helpers** (`Extensions.cs`), in `linq_extensions.dfy`: the XOR content hash, `Evaluate`, the `Single`/`First` variants and the order-preserving copies.
- **Media URLs** (`DefaultMediaUrlProvider`), in `media_url.dfy`:
  - path normalisation (illegal and forbidden characters, dots, space runs, segments, `%20`);
  - the six-character date hash, modelled down to the bytes of its Base64 encoding (section 4 of RFC 4648);
  - the store prefix;
  - the dot truncation of the classic pipeline;
  - assembly of the URL.
- `text.dfy` holds the .NET string operations the code relies on. `wrappers.dfy` holds `Option`, `Result` and `Outcome`.

Thrown exceptions are `Failure` values. The .NET 32-bit `int` is explicit where it matters: the content hash is a `bv32` and the date hash starts from an `Int32`.

## Model

Source paths are relative to the repository root.

| member | source | states |
|---|---|---|
| LinqExtensions.GetContentHashCode | Composite/Core/Linq/Extensions.cs:15-25 | the foreach loop returns the XOR of every key hash and value hash; it is 0 for an empty dictionary; it throws NullReference exactly when some value is null |
| LinqExtensions.XorOfEntriesAppend | Composite/Core/Linq/Extensions.cs:15-25 | the hash of two enumerations one after the other is the XOR of their hashes |
| LinqExtensions.XorOfEntriesRemove | Composite/Core/Linq/Extensions.cs:15-25 | taking any one entry out of the enumeration XORs exactly its contribution away |
| LinqExtensions.ContentHashOrderIndependent | Composite/Core/Linq/Extensions.cs:15-25 | two enumerations of the same entries, in any order, have the same content hash |
| LinqExtensions.Evaluate | Composite/Core/Linq/Extensions.cs:41-48 | the same elements in the same order; an array or list comes back unchanged, anything else becomes a new list |
| LinqExtensions.EvaluateOrNull | Composite/Core/Linq/Extensions.cs:52-61 | null for null, otherwise what Evaluate gives |
| LinqExtensions.EvaluateIdempotent | Composite/Core/Linq/Extensions.cs:41-48 | evaluating an evaluated collection changes nothing |
| LinqExtensions.SingleOrException | Composite/Core/Linq/Extensions.cs:71-80 | succeeds exactly on one row and returns that row; throws the empty message on 0 rows and the multiple message on 2 or more |
| LinqExtensions.SingleOrDefaultOrException | Composite/Core/Linq/Extensions.cs:90-99 | the default for 0 rows and the row for 1; throws the multiple message exactly when there are 2 or more rows |
| LinqExtensions.SingleVariantsAgree | Composite/Core/Linq/Extensions.cs:71-99 | on a non-empty result the two Single variants return or throw the same |
| LinqExtensions.FirstOrException | Composite/Core/Linq/Extensions.cs:108-115 | succeeds exactly when the first row exists and is not null, and returns it; otherwise throws the empty message |
| LinqExtensions.ToList | Composite/Core/Linq/Extensions.cs:126-136 | same length, with item i the convertor applied to source item i |
| LinqExtensions.ToListOfObjects | Composite/Core/Linq/Extensions.cs:138-148 | the loop copies the enumeration exactly, in order |
| LinqExtensions.ToEnumerableOfObjects | Composite/Core/Linq/Extensions.cs:151-157 | yields exactly the enumeration, in order |
| Text.ReplaceChar | Composite/Plugins/Data/DataProviders/MediaFileProvider/DefaultMediaUrlProvider.cs:89 | same length; each occurrence of the character replaced and every other character kept |
| Text.RemoveChar | Composite/Plugins/Data/DataProviders/MediaFileProvider/DefaultMediaUrlProvider.cs:99 | the character no longer occurs, and every other character of the input survives |
| Text.RemoveCharCounts | Composite/Plugins/Data/DataProviders/MediaFileProvider/DefaultMediaUrlProvider.cs:99 | every other character keeps its count: the multiset of the input with the character removed |
| Text.RemoveCharAppend | Composite/Plugins/Data/DataProviders/MediaFileProvider/DefaultMediaUrlProvider.cs:99 | deleting works piece by piece over a concatenation, so the kept characters stay in their order |
| Text.Trim | Composite/Plugins/Data/DataProviders/MediaFileProvider/DefaultMediaUrlProvider.cs:112 | neither starts nor ends with white space; adds no character; leaves a string without white space unchanged |
| Text.TrimIsInfix | Composite/Plugins/Data/DataProviders/MediaFileProvider/DefaultMediaUrlProvider.cs:112 | the result is an infix of the input, and everything outside it is white space |
| Text.Split | Composite/Plugins/Data/DataProviders/MediaFileProvider/DefaultMediaUrlProvider.cs:107 | at least one part; no part holds the separator; parts hold only characters of the input |
| Text.SplitJoin | Composite/Plugins/Data/DataProviders/MediaFileProvider/DefaultMediaUrlProvider.cs:107 | joining the parts on the separator gives the input back |
| Text.IndexOf | Composite/Plugins/Data/DataProviders/MediaFileProvider/DefaultMediaUrlProvider.cs:37 | -1 exactly when the character is absent, otherwise the position of its first occurrence |
| Text.ToLowerInvariant | Composite/Core/WebClient/Setup/SetupServiceFacade.cs:85 | same length, character by character lower-cased |
| Xml.AttributeValue | Composite/Core/WebClient/Setup/SetupServiceFacade.cs:383 | null exactly when no attribute has the name, otherwise the value of one that has it |
| Xml.DescendantsAreBelow | Composite/Core/WebClient/Setup/SetupServiceFacade.cs:377 | `Descendants()` lists exactly the elements below the element |
| Xml.WithName | Composite/Core/WebClient/Setup/SetupServiceFacade.cs:381 | `Descendants(name)` keeps exactly the descendants with that name |
| Xml.WithNameCounts | Composite/Core/WebClient/Setup/SetupServiceFacade.cs:381 | each element with the name is kept as often as it occurs, and no other |
| Xml.WithNameAppend | Composite/Core/WebClient/Setup/SetupServiceFacade.cs:381 | the filter works piece by piece over a concatenation, so the kept elements stay in document order |
| MediaUrlProvider.RemoveFilePathIllegalCharacters | Composite/Plugins/Data/DataProviders/MediaFileProvider/DefaultMediaUrlProvider.cs:144-152 | same length; a character becomes a space exactly when it is `"`, `<`, `>`, `\|` or a code 0..30; code 31 and all others are kept |
| MediaUrlProvider.CleanedPathRejected | Composite/Plugins/Data/DataProviders/MediaFileProvider/DefaultMediaUrlProvider.cs:82-83 | `Path.GetExtension` still throws on the cleaned path exactly when the original holds U+001F, the one invalid path character the cleaning keeps |
| MediaUrlProvider.UnitSeparatorBreaksNormalize | Composite/Plugins/Data/DataProviders/MediaFileProvider/DefaultMediaUrlProvider.cs:82-83 | normalising "a", U+001F, ".png" throws the ArgumentException of `Path.GetExtension` |
| MediaUrlProvider.FilePathLegalIntended | Composite/Plugins/Data/DataProviders/MediaFileProvider/DefaultMediaUrlProvider.cs:144-152 | the intended cleaning: same length, no character `Path.GetExtension` rejects remains, every other character is kept |
| MediaUrlProvider.IntendedCleaningAccepted | Composite/Plugins/Data/DataProviders/MediaFileProvider/DefaultMediaUrlProvider.cs:82-83 | after the intended cleaning `Path.GetExtension` never throws |
| MediaUrlProvider.DotsReplaced | Composite/Plugins/Data/DataProviders/MediaFileProvider/DefaultMediaUrlProvider.cs:84-90 | unchanged when the extension is IIS-servable; otherwise every dot, and nothing else, becomes `_` |
| MediaUrlProvider.ForbiddenRemoved | Composite/Plugins/Data/DataProviders/MediaFileProvider/DefaultMediaUrlProvider.cs:92-99 | no `+` and none of ``<>*%&\?#"`` remains; every character left was in the path or is a space |
| MediaUrlProvider.MaskThenRemove | Composite/Plugins/Data/DataProviders/MediaFileProvider/DefaultMediaUrlProvider.cs:94-99 | masking with `#` and then deleting `#` deletes exactly the forbidden characters |
| MediaUrlProvider.RemoveForbidden | Composite/Plugins/Data/DataProviders/MediaFileProvider/DefaultMediaUrlProvider.cs:92-99 | the masking loop computes ForbiddenRemoved |
| MediaUrlProvider.ReplaceDoubleSpaces | Composite/Plugins/Data/DataProviders/MediaFileProvider/DefaultMediaUrlProvider.cs:104 | never longer; strictly shorter while two spaces remain, so the loop terminates; keeps the first character and adds none |
| MediaUrlProvider.SqueezeReplaceDoubleSpaces | Composite/Plugins/Data/DataProviders/MediaFileProvider/DefaultMediaUrlProvider.cs:104 | one replace pass leaves the space runs of the path unchanged |
| MediaUrlProvider.SqueezeWithoutDoubleSpace | Composite/Plugins/Data/DataProviders/MediaFileProvider/DefaultMediaUrlProvider.cs:102 | a path without two adjacent spaces has no run left to squeeze |
| MediaUrlProvider.CollapseSpaces | Composite/Plugins/Data/DataProviders/MediaFileProvider/DefaultMediaUrlProvider.cs:102-105 | the result of the loop has no two adjacent spaces and no new character |
| MediaUrlProvider.CollapseSpacesIsSqueeze | Composite/Plugins/Data/DataProviders/MediaFileProvider/DefaultMediaUrlProvider.cs:102-105 | the loop turns every run of spaces into a single space and changes nothing else |
| MediaUrlProvider.CollapseDoubleSpaces | Composite/Plugins/Data/DataProviders/MediaFileProvider/DefaultMediaUrlProvider.cs:101-105 | the while loop computes that collapse |
| MediaUrlProvider.SegmentShape | Composite/Plugins/Data/DataProviders/MediaFileProvider/DefaultMediaUrlProvider.cs:112-116 | a segment is empty or "/" and a trimmed, non-empty part |
| MediaUrlProvider.JoinTrimmedShape | Composite/Plugins/Data/DataProviders/MediaFileProvider/DefaultMediaUrlProvider.cs:107-117 | the joined path is empty or starts with `/`, never ends with `/`, has no `//` and adds no character the parts lacked |
| MediaUrlProvider.JoinTrimmedStep | Composite/Plugins/Data/DataProviders/MediaFileProvider/DefaultMediaUrlProvider.cs:110-116 | each iteration appends the segment of its part |
| MediaUrlProvider.JoinParts | Composite/Plugins/Data/DataProviders/MediaFileProvider/DefaultMediaUrlProvider.cs:107-117 | the StringBuilder loop appends the segments of the parts in order |
| MediaUrlProvider.EncodeSpaces | Composite/Plugins/Data/DataProviders/MediaFileProvider/DefaultMediaUrlProvider.cs:120 | no space remains; empty exactly for the empty path; adds only `%`, `2` and `0` |
| MediaUrlProvider.EncodeSpacesRoundTrip | Composite/Plugins/Data/DataProviders/MediaFileProvider/DefaultMediaUrlProvider.cs:120 | on a path without `%`, decoding `%20` gives the path back |
| MediaUrlProvider.EncodeSpacesNoAdjacentSlash | Composite/Plugins/Data/DataProviders/MediaFileProvider/DefaultMediaUrlProvider.cs:120 | encoding cannot create `//` |
| MediaUrlProvider.PartsClean | Composite/Plugins/Data/DataProviders/MediaFileProvider/DefaultMediaUrlProvider.cs:92-107 | the split parts hold neither `/`, `+` nor a forbidden character |
| MediaUrlProvider.JoinedPathClean | Composite/Plugins/Data/DataProviders/MediaFileProvider/DefaultMediaUrlProvider.cs:92-117 | the joined path holds no `+` and no forbidden character |
| MediaUrlProvider.JoinedPathShape | Composite/Plugins/Data/DataProviders/MediaFileProvider/DefaultMediaUrlProvider.cs:107-117 | the joined path is empty or rooted at `/`, has no `//`, no `+` and no forbidden character |
| MediaUrlProvider.EncodeSpacesKeepsOut | Composite/Plugins/Data/DataProviders/MediaFileProvider/DefaultMediaUrlProvider.cs:120 | a character other than `%`, `2`, `0` absent before encoding is absent after |
| MediaUrlProvider.EncodeSpacesShape | Composite/Plugins/Data/DataProviders/MediaFileProvider/DefaultMediaUrlProvider.cs:120 | encoding keeps the path rooted, without `//`, `+`, a space or a forbidden character other than `%` |
| MediaUrlProvider.NormalizedPathShape | Composite/Plugins/Data/DataProviders/MediaFileProvider/DefaultMediaUrlProvider.cs:80-123 | the normalised path is empty or starts with `/`, has no `//`, no space, no `+` and no forbidden character except the `%` of `%20` |
| MediaUrlProvider.NormalizedPathDecodes | Composite/Plugins/Data/DataProviders/MediaFileProvider/DefaultMediaUrlProvider.cs:107-122 | decoding its `%20`s gives back the joined, trimmed segments |
| MediaUrlProvider.Normalize | Composite/Plugins/Data/DataProviders/MediaFileProvider/DefaultMediaUrlProvider.cs:80-123 | throws exactly when the path holds U+001F; otherwise the normalised path for the servability of the cleaned path's extension |
| MediaUrlProvider.RemoveForbiddenCharactersAndNormalize | Composite/Plugins/Data/DataProviders/MediaFileProvider/DefaultMediaUrlProvider.cs:80-123 | the method, statement by statement, computes Normalize: it throws exactly when the path holds U+001F, and otherwise gives a path that is rooted or empty, without `//` or a space |
| MediaUrlProvider.Base64Encode | Composite/Plugins/Data/DataProviders/MediaFileProvider/DefaultMediaUrlProvider.cs:76 | `Convert.ToBase64String` gives 4 characters per 3 bytes, rounded up |
| MediaUrlProvider.Unsigned | Composite/Plugins/Data/DataProviders/MediaFileProvider/DefaultMediaUrlProvider.cs:75 | the bit pattern of the `int` hash lies in 0..2^32-1 |
| MediaUrlProvider.Int32Bytes | Composite/Plugins/Data/DataProviders/MediaFileProvider/DefaultMediaUrlProvider.cs:76 | `BitConverter.GetBytes` gives four bytes, low byte first, that spell the hash |
| MediaUrlProvider.Int32BytesInjective | Composite/Plugins/Data/DataProviders/MediaFileProvider/DefaultMediaUrlProvider.cs:76 | the four bytes determine the hash |
| MediaUrlProvider.UrlSafeDigit | Composite/Plugins/Data/DataProviders/MediaFileProvider/DefaultMediaUrlProvider.cs:76 | the replacements map each Base64 digit to a URL-safe character |
| MediaUrlProvider.Sextets | Composite/Plugins/Data/DataProviders/MediaFileProvider/DefaultMediaUrlProvider.cs:76 | four bytes give six 6-bit groups |
| MediaUrlProvider.SextetsInjective | Composite/Plugins/Data/DataProviders/MediaFileProvider/DefaultMediaUrlProvider.cs:76 | the six groups determine the four bytes |
| MediaUrlProvider.Base64OfFourBytes | Composite/Plugins/Data/DataProviders/MediaFileProvider/DefaultMediaUrlProvider.cs:76 | the first six Base64 characters of four bytes are the digits of their six groups |
| MediaUrlProvider.UrlSafePrefix | Composite/Plugins/Data/DataProviders/MediaFileProvider/DefaultMediaUrlProvider.cs:76 | `Substring(0, 6).Replace('+', '-').Replace('/', '_')` acts character by character |
| MediaUrlProvider.UrlSafeDigitInjective | Composite/Plugins/Data/DataProviders/MediaFileProvider/DefaultMediaUrlProvider.cs:76 | different digits stay different after the replacements |
| MediaUrlProvider.UrlSafeDigitsInjective | Composite/Plugins/Data/DataProviders/MediaFileProvider/DefaultMediaUrlProvider.cs:76 | six URL-safe characters determine their six groups |
| MediaUrlProvider.GetDateTimeHashDigits | Composite/Plugins/Data/DataProviders/MediaFileProvider/DefaultMediaUrlProvider.cs:73-77 | the hash string is the URL-safe digits of the six groups of the little-endian bytes |
| MediaUrlProvider.GetDateTimeHashShape | Composite/Plugins/Data/DataProviders/MediaFileProvider/DefaultMediaUrlProvider.cs:73-77 | six URL-safe characters, never `+`, `/` or `=` |
| MediaUrlProvider.GetDateTimeHashInjective | Composite/Plugins/Data/DataProviders/MediaFileProvider/DefaultMediaUrlProvider.cs:73-77 | different hash codes give different strings: the six characters keep all 32 bits |
| MediaUrlProvider.GetFileById | Composite/Plugins/Data/DataProviders/MediaFileProvider/DefaultMediaUrlProvider.cs:126-141 | null exactly when no file has the store and id; otherwise the first such file |
| MediaUrlProvider.MediaStorePrefix | Composite/Plugins/Data/DataProviders/MediaFileProvider/DefaultMediaUrlProvider.cs:44-49 | empty exactly when the store is "MediaArchive" ignoring case, otherwise the store and `/` |
| MediaUrlProvider.TruncateAtFirstDot | Composite/Plugins/Data/DataProviders/MediaFileProvider/DefaultMediaUrlProvider.cs:35-42 | the prefix before the first dot, or the whole path when it has none; no dot remains |
| MediaUrlProvider.PathInfoShape | Composite/Plugins/Data/DataProviders/MediaFileProvider/DefaultMediaUrlProvider.cs:35-62 | the hash segment and the path join into a PathInfo without a space, rooted or empty, and without a dot in the classic pipeline |
| MediaUrlProvider.HashPartShape | Composite/Plugins/Data/DataProviders/MediaFileProvider/DefaultMediaUrlProvider.cs:54-56 | the hash segment is empty or `/` and six URL-safe characters |
| MediaUrlProvider.UrlPathInfoShape | Composite/Plugins/Data/DataProviders/MediaFileProvider/DefaultMediaUrlProvider.cs:30-62 | whenever the path normalises, the PathInfo never holds a space, is empty or rooted at `/`, and holds no dot in the classic pipeline |
| MediaUrlProvider.AppendUnlessEmpty | Composite/Plugins/Data/DataProviders/MediaFileProvider/DefaultMediaUrlProvider.cs:59-62 | appending only a non-empty path is appending it |
| MediaUrlProvider.GetUrl | Composite/Plugins/Data/DataProviders/MediaFileProvider/DefaultMediaUrlProvider.cs:22-70 | null exactly when the file is not found; throws exactly when the file is found and its path holds U+001F; otherwise the path is root, `/media/`, the store prefix and the id, with the PathInfo of the normalised path and the caller's query parameters |
| RandomStringDefault.NewAttribute | Composite/Data/DefaultFieldRandomStringValueAttribute.cs:39-46 | accepts exactly the lengths 3..22 and keeps both arguments; below 3 and above 22 throw on `length` with their messages |
| RandomStringDefault.DefaultAttributeIsValid | Composite/Data/DefaultFieldRandomStringValueAttribute.cs:39 | the default is length 8 without collision checking |
| RandomStringDefault.Selected | Composite/Data/DefaultFieldRandomStringValueAttribute.cs:133-146 | never lists more entries than there are properties |
| RandomStringDefault.SelectedSingleton | Composite/Data/DefaultFieldRandomStringValueAttribute.cs:133-146 | one property gives one entry, with its attribute and key flag, exactly when it is a string property with the attribute, and none otherwise |
| RandomStringDefault.SelectedAppend | Composite/Data/DefaultFieldRandomStringValueAttribute.cs:133-146 | selection works piece by piece over a concatenation, so the entries keep the order of their properties |
| RandomStringDefault.SelectedMembers | Composite/Data/DefaultFieldRandomStringValueAttribute.cs:133-145 | a property is listed exactly when it is a string property with the attribute; it is a key exactly when it is the sole key property |
| RandomStringDefault.CollectRandomStringProperties | Composite/Data/DefaultFieldRandomStringValueAttribute.cs:131-148 | the factory loop lists those properties in order |
| RandomStringDefault.ReflectionCache.constructor | Composite/Data/DefaultFieldRandomStringValueAttribute.cs:22 | the cache starts empty |
| RandomStringDefault.ReflectionCache.GetRandomStringProperties | Composite/Data/DefaultFieldRandomStringValueAttribute.cs:127-150 | hit or miss, returns the listed properties of the type and afterwards caches exactly that list for it |
| RandomStringDefault.ReflectionCache.Clear | Composite/Data/DefaultFieldRandomStringValueAttribute.cs:51 | the flush empties the cache |
| RandomStringDefault.GuidSource.GenerateRandomString | Composite/Data/DefaultFieldRandomStringValueAttribute.cs:122-125 | the next compressed GUID of the stream, cut to the length |
| RandomStringDefault.RandomString | Composite/Data/DefaultFieldRandomStringValueAttribute.cs:124 | exactly the length, a prefix of the compressed GUID |
| RandomStringDefault.Retry | Composite/Data/DefaultFieldRandomStringValueAttribute.cs:73-82 | the retry loop never goes back in the GUID stream |
| RandomStringDefault.RetryOutcome | Composite/Data/DefaultFieldRandomStringValueAttribute.cs:70-88 | the loop takes a drawn value only once it checked as not in use; it fails with the "after 2 tries" error only when every candidate checked was in use |
| RandomStringDefault.FillValueUnchecked | Composite/Data/DefaultFieldRandomStringValueAttribute.cs:66-91 | without collision checking, the first drawn string is taken without a check |
| RandomStringDefault.FillValueChecked | Composite/Data/DefaultFieldRandomStringValueAttribute.cs:66-91 | with checking, at most two candidates are checked and at most three drawn; the value taken checked as not in use; failure means both candidates were in use |
| RandomStringDefault.FillValueLength | Composite/Data/DefaultFieldRandomStringValueAttribute.cs:66-91 | every value set has the attribute's length |
| RandomStringDefault.FillStep | Composite/Data/DefaultFieldRandomStringValueAttribute.cs:63-91 | filling a field adds or removes no field |
| RandomStringDefault.FillAll | Composite/Data/DefaultFieldRandomStringValueAttribute.cs:61-92 | filling the fields adds or removes no field |
| RandomStringDefault.FillAllKeepsNonNull | Composite/Data/DefaultFieldRandomStringValueAttribute.cs:63-64 | a field that is not null keeps its value |
| RandomStringDefault.FillAllLengths | Composite/Data/DefaultFieldRandomStringValueAttribute.cs:63-91 | a null field that gets a value gets one of the length of its attribute |
| RandomStringDefault.FillAllFillsEveryField | Composite/Data/DefaultFieldRandomStringValueAttribute.cs:61-92 | when nothing throws, no listed field is left null |
| RandomStringDefault.FillAllPrefix | Composite/Data/DefaultFieldRandomStringValueAttribute.cs:61-92 | the fields are filled one after another, in list order |
| RandomStringDefault.FillAllStaysFailed | Composite/Data/DefaultFieldRandomStringValueAttribute.cs:84-88 | once `Verify.That` throws, no later field is touched |
| RandomStringDefault.FindUnusedValue | Composite/Data/DefaultFieldRandomStringValueAttribute.cs:70-82 | the for loop checks at most two candidates; the value found is the last one checked and is not in use; all those before it are in use; not found means both were in use |
| RandomStringDefault.FillField | Composite/Data/DefaultFieldRandomStringValueAttribute.cs:63-91 | one field, statement by statement; the record and the GUID stream end as FillStep says, with the same guarantees on the checked candidates |
| RandomStringDefault.OnBeforeAddData | Composite/Data/DefaultFieldRandomStringValueAttribute.cs:54-93 | the field loop leaves the record, the GUID stream and the outcome as FillAll says, and keeps the cache valid |
| SetupQueries.ExceptionText | Composite/Core/WebClient/Setup/SetupServiceFacade.cs:144 | `ex.ToString()` is never empty, so a failure registration differs from a success one |
| SetupQueries.QuerySingleCounts | Composite/Core/WebClient/Setup/SetupServiceFacade.cs:376-379 | `Single`: the value when exactly one is selected; throws on none or on more |
| SetupQueries.QuerySingleStopsAtSecond | Composite/Core/WebClient/Setup/SetupServiceFacade.cs:386-389 | `SingleOrDefault` throws at the second value, whatever follows |
| SetupQueries.QueryFirstStopsAtFirst | Composite/Core/WebClient/Setup/SetupServiceFacade.cs:237-241 | `FirstOrDefault` gives the first value and evaluates nothing after it |
| SetupQueries.QueryFirstAgrees | Composite/Core/WebClient/Setup/SetupServiceFacade.cs:237-241 | `FirstOrDefault` gives the first value selected, or null when there is none |
| SetupQueries.MaxOf | Composite/Core/WebClient/Setup/SetupServiceFacade.cs:370 | `Max()` is one of the values and no value exceeds it |
| SetupQueries.MaxKeyCorrect | Composite/Core/WebClient/Setup/SetupServiceFacade.cs:370 | the largest `key` of the caller's description, which exists exactly when some key does |
| SetupQueries.ServerNodeCorrect | Composite/Core/WebClient/Setup/SetupServiceFacade.cs:376-379 | the single server element keyed `maxkey`; throws when none or several are |
| SetupQueries.PackageUrlsCorrect | Composite/Core/WebClient/Setup/SetupServiceFacade.cs:381-392 | one URL per caller package element, in document order, each the server URL followed by the matched url |
| SetupQueries.PackageWithoutIdIsMalformed | Composite/Core/WebClient/Setup/SetupServiceFacade.cs:383-384 | a package without an id throws "Setup XML malformed" |
| SetupQueries.DuplicateIdThrows | Composite/Core/WebClient/Setup/SetupServiceFacade.cs:386-389 | an id two server packages carry throws |
| SetupQueries.UnmatchedIdGivesServerUrl | Composite/Core/WebClient/Setup/SetupServiceFacade.cs:386-391 | an id no server package carries gives the bare server URL |
| SetupQueries.FirstLanguage | Composite/Core/WebClient/Setup/SetupServiceFacade.cs:237-241 | the lookup is null when no `Language` element has the key, and the url of the first one that has it otherwise |
| SetupQueries.NoLanguage | Composite/Core/WebClient/Setup/SetupServiceFacade.cs:237-241 | the lookup gives null exactly when no `Language` element carries the key |
| SetupQueries.LanguageAt | Composite/Core/WebClient/Setup/SetupServiceFacade.cs:237-241 | the lookup gives the url of the first keyed element, and throws when it has no url |
| SetupQueries.LanguagePackageUrlCorrect | Composite/Core/WebClient/Setup/SetupServiceFacade.cs:237-241 | null exactly when no `Language` element has the culture's key; otherwise the url of the first that has it |
| SetupQueries.ConfiguredServerUrlCorrect | Composite/Core/WebClient/Setup/SetupServiceFacade.cs:64-71 | the attribute of the single `Composite.SetupConfiguration` element; throws when there is none or more than one |
| SetupQueries.SelectAllEverything | Composite/Core/WebClient/Setup/SetupServiceFacade.cs:376-379 | a query that selects every element gives them all, in order |
| SetupQueries.CreateClientBinding | Composite/Core/WebClient/Setup/SetupServiceFacade.cs:333-364 | 2-minute timeouts in debug builds and 1-minute ones otherwise; maximum message size `int.MaxValue`; transport security exactly for `https://`; the endpoint is the unstripped server URL and `/Setup/Setup.asmx` |
| SetupFacade.ConcatBounds | Composite/Core/WebClient/Setup/SetupServiceFacade.cs:269-277 | with chunks of 1..32768 bytes, the copy holds at least one byte per chunk and at most 32768 |
| SetupFacade.ResponseStream.Read | Composite/Core/WebClient/Setup/SetupServiceFacade.cs:274 | the next chunk in the buffer; 0 at the end; the way the stream breaks once it is used up |
| SetupFacade.MemoryStream.Write | Composite/Core/WebClient/Setup/SetupServiceFacade.cs:276 | the buffer's bytes written at the position, which advances by their count |
| SetupFacade.MemoryStream.Seek | Composite/Core/WebClient/Setup/SetupServiceFacade.cs:288 | the position is the offset and the content is unchanged |
| SetupFacade.DownloadRun | Composite/Core/WebClient/Setup/SetupServiceFacade.cs:260-290 | one download call; the bytes are all chunks read, up to the end or a thread abort; any other failure is wrapped with the URL |
| SetupFacade.SetupService.DownloadPackage | Composite/Core/WebClient/Setup/SetupServiceFacade.cs:260-290 | the read/write loop returns a new stream at position 0 holding exactly DownloadRun's bytes, or throws its error |
| SetupFacade.LogValidationResults | Composite/Core/WebClient/Setup/SetupServiceFacade.cs:397-403 | returns exactly when there is no message, and otherwise throws the first |
| SetupFacade.RunPhasesStopsAtFirstFailure | Composite/Core/WebClient/Setup/SetupServiceFacade.cs:297-319 | phases run in order and stop at the first non-empty result, which is what is thrown; success means every phase came back empty |
| SetupFacade.InstallPackagePhases | Composite/Core/WebClient/Setup/SetupServiceFacade.cs:293-328 | never returns false; validation only after an empty pre-install result, installation only after an empty validation; true exactly when all three are empty; otherwise throws the first message |
| SetupFacade.SetupService.InstallPackage | Composite/Core/WebClient/Setup/SetupServiceFacade.cs:293-328 | the method returns and records what InstallPackageRun says |
| SetupFacade.InstallPackagePreInstalls | Composite/Core/WebClient/Setup/SetupServiceFacade.cs:297 | one package install hands exactly its own bytes to the package manager, once |
| SetupFacade.LanguageRunFalse | Composite/Core/WebClient/Setup/SetupServiceFacade.cs:231-247 | false, with no call made, exactly when no `Language` element has the culture name as its key |
| SetupFacade.LanguageRunInstallsFirstMatch | Composite/Core/WebClient/Setup/SetupServiceFacade.cs:249-256 | true only after downloading the first match's URL and installing exactly those bytes |
| SetupFacade.SetupService.InstallLanguagePackage | Composite/Core/WebClient/Setup/SetupServiceFacade.cs:231-257 | returns and records what LanguageRun says |
| SetupFacade.DownloadFirst | Composite/Core/WebClient/Setup/SetupServiceFacade.cs:121-124 | the first n downloads give n packages |
| SetupFacade.DownloadFirstCorrect | Composite/Core/WebClient/Setup/SetupServiceFacade.cs:118-124 | `packages[i]` is the download of `packageUrls[i]`; the stage succeeds exactly when no delivery breaks; one download call per URL |
| SetupFacade.DownloadFailureStays | Composite/Core/WebClient/Setup/SetupServiceFacade.cs:121-124 | once a download fails, the stage fails the same way |
| SetupFacade.InstallRuns | Composite/Core/WebClient/Setup/SetupServiceFacade.cs:126-130 | the i-th install is package i with URL i |
| SetupFacade.InstallFirstInOrder | Composite/Core/WebClient/Setup/SetupServiceFacade.cs:126-130 | packages reach the package manager strictly in index order, each with its own bytes, all of them on success |
| SetupFacade.SequencedInOrder | Composite/Core/WebClient/Setup/SetupServiceFacade.cs:126-130 | running installs one after another keeps their order |
| SetupFacade.SequencedFailureStays | Composite/Core/WebClient/Setup/SetupServiceFacade.cs:126-130 | once an install throws, no later one runs |
| SetupFacade.PackagesInstallDownloads | Composite/Core/WebClient/Setup/SetupServiceFacade.cs:118-136 | when the stage completes, the i-th package installed is the download of the i-th URL, and the last call is the registration with an empty exception text |
| SetupFacade.FinishRun | Composite/Core/WebClient/Setup/SetupServiceFacade.cs:132-136 | on success the console language is the user culture when its language pack was installed and the default culture otherwise, and the last call is the registration with "" |
| SetupFacade.SetupBodyEndsRegistered | Composite/Core/WebClient/Setup/SetupServiceFacade.cs:96-139 | when the try block completes, its last call is the registration with "" |
| SetupFacade.RegisterRunShape | Composite/Core/WebClient/Setup/SetupServiceFacade.cs:222-227 | a registration that goes through is one call with its text |
| SetupFacade.SetUpRunOffline | Composite/Core/WebClient/Setup/SetupServiceFacade.cs:81-155 | offline is the first call; the site stays offline only when an exception escapes; a description that does not parse throws and leaves it offline |
| SetupFacade.SetUpRunOnline | Composite/Core/WebClient/Setup/SetupServiceFacade.cs:136-154 | when the site goes back online, the call just before is the registration, with "" after success and with the exception's text after a failure |
| SetupFacade.SetupService.constructor | Composite/Core/WebClient/Setup/SetupServiceFacade.cs:55 | the server URL starts uncached and the trace empty |
| SetupFacade.SetupService.PackageServerUrl | Composite/Core/WebClient/Setup/SetupServiceFacade.cs:60-76 | the configured URL; read once and cached, with the cache left empty when the read throws |
| SetupFacade.SetupService.CreateClient | Composite/Core/WebClient/Setup/SetupServiceFacade.cs:333-364 | the binding CreateClientBinding describes for the configured URL, or the configuration error |
| SetupFacade.SetupService.Perform | Composite/Core/WebClient/Setup/SetupServiceFacade.cs:103-114 | one service call, recorded |
| SetupFacade.SetupService.RegisterSetup | Composite/Core/WebClient/Setup/SetupServiceFacade.cs:222-227 | returns and records what RegisterRun says |
| SetupFacade.SetupService.GetPackageUrls | Composite/Core/WebClient/Setup/SetupServiceFacade.cs:368-393 | the URLs GetPackageUrls resolves, with no call recorded |
| SetupFacade.SetupService.CreateAccounts | Composite/Core/WebClient/Setup/SetupServiceFacade.cs:100-114 | start-up, locale, administrator and culture calls in order, stopping at the first that throws |
| SetupFacade.SetupService.DownloadPackages | Composite/Core/WebClient/Setup/SetupServiceFacade.cs:118-124 | fills a new array so that `packages[i]` holds the download of `packageUrls[i]`, or throws the first failure |
| SetupFacade.SetupService.InstallAt | Composite/Core/WebClient/Setup/SetupServiceFacade.cs:128-129 | installs package i as InstallRuns says |
| SetupFacade.SetupService.InstallDownloaded | Composite/Core/WebClient/Setup/SetupServiceFacade.cs:126-130 | the for loop installs in index order, stopping at the first that throws |
| SetupFacade.SetupService.Finish | Composite/Core/WebClient/Setup/SetupServiceFacade.cs:132-136 | returns and records what FinishRun says |
| SetupFacade.SetupService.InstallPackages | Composite/Core/WebClient/Setup/SetupServiceFacade.cs:118-136 | returns and records what PackagesRun says |
| SetupFacade.SetupService.SetupBody | Composite/Core/WebClient/Setup/SetupServiceFacade.cs:96-139 | the try block returns and records what SetupBodyRun says, and leaves the flag alone |
| SetupFacade.SetupService.SetUp | Composite/Core/WebClient/Setup/SetupServiceFacade.cs:81-155 | result, trace and online flag as SetUpRun says; with SetUpRunOffline and SetUpRunOnline, that gives offline first, a parse failure left offline, and the registration just before going back online |
| SetupFacade.MalformedDescriptionLeavesOffline | Composite/Core/WebClient/Setup/SetupServiceFacade.cs:83-87 | SetUp on the description "<" leaves the site offline |
| SetupFacade.SetupService.SetUpAlwaysOnline | Composite/Core/WebClient/Setup/SetupServiceFacade.cs:81-155 | the same result and calls as SetUp, followed by an online call whenever SetUp left the site offline; the site is always online at the end, with offline the first call and online the last |

## Left out

- `Parallel.For` (SetupServiceFacade.cs:121): the downloads run one after another in index order. The proved correspondence between `packages[i]` and `packageUrls[i]` does not depend on order. The order of the download calls in the trace is the model's, not the source's, and the model does not capture an `AggregateException` that bundles several failures; the first failure in index order is the one thrown.
- `ThreadAbortException` (SetupServiceFacade.cs:282): it is swallowed as the catch clause reads. The .NET runtime re-raises it at the end of the catch, which the model does not capture.
- The SOAP client, `HttpWebRequest`, `PathUtil`/`XDocumentUtils` and the configuration file, `PackageManager`, `LocalizationFacade`, `AdministratorAutoCreator`, `UserValidationFacade`, `UserSettings`, `StringResourceSystemFacade`, `RuntimeInformation` and `ApplicationOnlineHandlerFacade` are fields of the `Environment` value or calls recorded in the trace. Their own behaviour is not modelled.
- Logging (`Log.*`) is left out: it changes no state the setup reads.
- The registration payload is the `Registration` value. Its XML serialisation, `string.Format` of the messages and `FormatWith` are not modelled; exception messages are data.
- `PingServer`, `GetSetupDescription`, `GetLanguages`, `GetLanguagePackages` and `GetGetLicense` (SetupServiceFacade.cs:160-218) are single SOAP calls. The setup reads their results from the environment (`setupDescription`, `languagePackages`); they are not modelled separately.
- `MemoryStream` is reduced to content and position, with the growth and capacity rules left out. `Stream.Close` and the `using` block are left out.
- Reflection, the `ConcurrentDictionary` and its thread safety, and the data-event subscription (DefaultFieldRandomStringValueAttribute.cs:48-52, 129, 133) are left out. Properties are `PropertyInfo` values listed in declaration order; the record is a map from field name to optional string; `GetOrAdd` is a method on a class holding a map.
- `Guid.NewGuid` and `UrlUtils.CompressGuid` are a fixed stream of 22-character strings. The store queries behind `ValueIsInUse` (`TryGetDataByUniqueKey`, the expression-tree query) are a parameter.
- `DateTime.GetHashCode` and `ToUniversalTime`, `UrlUtils.Combine`, the extension `Path.GetExtension` finds (its ArgumentException on an invalid path character is modelled), `MimeTypeInfo.IsIisServable`, `HttpRuntime.UsingIntegratedPipeline` and `UrlUtils.PublicRootPath` are fields of `MediaEnvironment`. The data scope and the two query shapes of `GetFileById` are one first-match search.
- MediaUrlProvider.GetUrl: returns the parts of the `UrlBuilder` (path, PathInfo, query parameters) instead of its `ToString()`; the query-string merging of `AddQueryParameters` is not modelled.
- LinqExtensions.GetContentHashCode: `GetHashCode` of keys and values is a parameter of type `bv32`. A dictionary is the sequence of its entries in enumeration order.
- LinqExtensions.SingleOrException: `IQueryable` is the list of rows its `ToList()` gives; query translation is not modelled. The same holds for SingleOrDefaultOrException and FirstOrException.
- Text.ToLowerInvariant: lower-cases only the Basic Latin letters A-Z, not the rest of the invariant culture's mapping.
- Text.EqualsIgnoreCase: compares ignoring the case of Basic Latin letters only, where `InvariantCultureIgnoreCase` covers all of Unicode.
- SetupQueries.CreateClientBinding: tests the `https://` prefix ordinally, where `StartsWith(string)` (SetupServiceFacade.cs:354) compares under the current culture, which ignores characters such as U+00AD (soft hyphen); a URL that differs from `https://` only by such characters gets no transport security in the model.
- SetupQueries.KeyOf: `XmlConvert.ToInt32` is an oracle that yields an `Int32` or nothing; a key text outside the `Int32` range throws an OverflowException in .NET, which the model reports as the FormatException, so the exception text registered after such a failure differs.
- A null argument where the source would throw `NullReferenceException` (a null `username`, `path` or `mediaUrlData`) is not modelled: strings and records are never null. Null attribute values and null query results are modelled.

## Findings

| source | as written | input that shows it | evidently intended | confidence | as-written member | corrected member |
|---|---|---|---|---|---|---|
| Composite/Core/WebClient/Setup/SetupServiceFacade.cs:83-154 | `XElement.Parse` runs before the try block, and the catch calls `RegisterSetup` again with no finally; a parse error, or a registration that throws inside the catch, leaves the site offline | `setupDescriptionXml = "<"` (or a package server that refuses the registration after a failed install) | the site is back online after every outcome of the setup | high; not executed | SetupFacade.MalformedDescriptionLeavesOffline | SetupFacade.SetupService.SetUpAlwaysOnline |
| Composite/Plugins/Data/DataProviders/MediaFileProvider/DefaultMediaUrlProvider.cs:147 | the loop clears codes 0 to 30 (`i < 31`), so U+001F stays in the path handed to `Path.GetExtension`, which on the .NET Framework throws on every code below 32 | a media file named "a", U+001F, ".png": GetUrl throws an ArgumentException instead of returning a URL | clear every code below 32, so that the extension check never throws | high; not executed | MediaUrlProvider.UnitSeparatorBreaksNormalize | MediaUrlProvider.FilePathLegalIntended |
