# saacloudnery media core in Dafny

This project models the server-side core of saacloudnery. saacloudnery is a
Next.js application. A signed-in user uploads videos to Cloudinary through
it and applies Cloudinary transformation effects to stored media. The
model covers three parts:

- **Media effects** (`MediaEffects`, `media_effects.dfy`).
  - POST turns a list of effect identifiers into a Cloudinary
    transformation string through the fixed `effectsMap`. It then builds
    the original and the transformed delivery URLs and a compression
    estimate.
  - GET returns the effect catalogue by category, with the supported
    image and video formats.
  - Both are pure functions of the signed-in user id, the configured
    cloud name and the parsed JSON body.
- **Video upload** (`VideoUpload`, `video_upload.dfy`).
  - POST runs a fixed sequence of checks: session, credentials, form,
    file, title, size (70 MiB).
  - It then asks Cloudinary for one upload and, when that succeeds,
    writes one Prisma `Video` row. The response echoes the row.
  - The function `PostSpec` says what one request does: its response,
    the upload it requests, the asset stored and the row written.
  - The class `UploadRoute` keeps the store's and the database's contents
    as fields. Its method `Post` updates them step by step, as the
    handler does, and is proved against `PostSpec`. It keeps the
    invariant that every row names an asset the store holds.
- **Authentication middleware** (`Middleware`, `middleware.dfy`).
  - A signed-in user is redirected from the public pages other than
    `/home` to `/home`.
  - A signed-out user is redirected to `/sign-in` unless the route is
    public.
  - Everything else passes through.
  - `config.matcher` decides which requests the middleware runs on.

`Js` (`js.dfy`) writes out the ECMAScript built-ins the handlers use, over
`seq<char>`: truthiness, `startsWith`, `includes`, `join`, `trim` and
`String(n)`. `Wrappers` (`wrappers.dfy`) holds `Option`.

`effectsMap[effect]` reads a property of a plain object. Besides the
map's own keys, it finds the twelve members every object inherits from
`Object.prototype`, such as `constructor` and `toString`.

- `MediaEffects.ReadableProperties` is the table of every property the
  lookup can read. The own keys shadow the inherited members.
- `MediaEffects.Post` is the handler as written, over that table.
- `MediaEffects.PostIntended` is the same handler over the own keys
  only.
- Both are `MediaEffects.PostWith` applied to a lookup table.
- The compilation and POST lemmas take the table as a parameter. They
  hold for every table whose entries are non-empty and free of `/`, so
  they hold for both handlers.

Other facts about the code that the model keeps:

- Effect identifiers are not de-duplicated. A repeated identifier
  repeats its fragment (`NoDeduplication`).
- The upload route checks the title before the size (`TitleBeforeSize`).
- The upload route refuses a file larger than 70 MiB; a file of exactly
  70 MiB passes (`SizeLimitInclusive`). The media-effects route checks no
  size.
- Every failure after admission is answered by the one `catch`, which
  reads only the error's message:
  - An error the store passes to the upload callback becomes "Upload
    service error".
  - A failed row write after a stored upload is classified by its
    message. The asset is left orphaned (`DbFailureLeavesOrphan`).
- The media type only chooses the URL path segment. The effects compile
  the same way for images and videos, so a video effect on an image is
  applied like any other.

## Model

| member | source | states |
|---|---|---|
| Js.Truthy | saacloudnery/app/api/media-effects/route.ts:8-26 | Has no contract of its own. Only a present, non-empty string is truthy. The checks built on it are stated by `MediaEffects.PostCheckOrder`, `VideoUpload.AdmitOrder` and `Middleware.SignedIn`. |
| Js.StartsWith | saacloudnery/middleware.ts:20 | Has no contract of its own. The string's prefix of the pattern's length is the pattern. Its uses are stated by `Middleware.SignedOutApiRequiresSignIn` and `Js.JoinStartsWithFirst`. |
| Js.Includes | saacloudnery/app/api/video-upload/route.ts:146-153 | Has no contract of its own. It tries the pattern at each index in turn, as the built-in scans. `Js.IncludesIff` relates it to the reference meaning. |
| Js.IncludesIff | saacloudnery/app/api/video-upload/route.ts:146-153 | The index-by-index scan finds the substring exactly when it occurs at some index. This holds in both directions. |
| Js.IncludesPrefixOf | saacloudnery/app/api/video-upload/route.ts:100 | A string that starts with a substring includes it, whatever follows. |
| Js.Join | saacloudnery/app/api/media-effects/route.ts:73 | Joining no parts gives the empty string. Joining one part gives that part. |
| Js.JoinConcat | saacloudnery/app/api/media-effects/route.ts:73 | Joining `a + b` equals joining `a`, the separator, then joining `b`, when both are non-empty. |
| Js.JoinStartsWithFirst | saacloudnery/app/api/media-effects/route.ts:73 | A join starts with its first part. |
| Js.JoinEmptyIff | saacloudnery/app/api/media-effects/route.ts:72-75 | When no part is empty, the join is empty exactly when there are no parts. |
| Js.IsWhiteSpace | saacloudnery/app/api/video-upload/route.ts:61 | Has no contract of its own. It is the set of characters `trim()` removes: the ECMAScript WhiteSpace and LineTerminator code points. `Js.TrimSpec` and `VideoUpload.TitleAcceptedIff` state what removing them gives. |
| Js.TrimStart | saacloudnery/app/api/video-upload/route.ts:61 | Has no contract of its own. It drops leading ECMAScript white space and line terminators. `Js.TrimStartSpec` states its property. |
| Js.TrimEnd | saacloudnery/app/api/video-upload/route.ts:61 | Has no contract of its own. It drops trailing white space. `Js.TrimEndSpec` states its property. |
| Js.Trim | saacloudnery/app/api/video-upload/route.ts:61 | Has no contract of its own. It trims both ends. `Js.TrimSpec` and `Js.TrimIdempotent` state its properties. |
| Js.TrimStartSpec | saacloudnery/app/api/video-upload/route.ts:61 | `trimStart` leaves a suffix of the input. It removes only white space and stops at a character that is not white space. |
| Js.TrimEndSpec | saacloudnery/app/api/video-upload/route.ts:61 | `trimEnd` leaves a prefix of the input. It removes only white space and stops at a character that is not white space. |
| Js.TrimSpec | saacloudnery/app/api/video-upload/route.ts:61 | `trim` returns a slice of the input with only white space cut from either end. The result neither starts nor ends with white space. It is empty exactly when the input is all white space. |
| Js.TrimIdempotent | saacloudnery/app/api/video-upload/route.ts:114-115 | Trimming an already trimmed string changes nothing. |
| Js.Digit | saacloudnery/app/api/video-upload/route.ts:118 | The digit of a value below 10 is a character from `0` to `9`. |
| Js.DecimalString | saacloudnery/app/api/video-upload/route.ts:118 | `String(n)` is a non-empty string of decimal digits with no leading zero, except for "0" itself. |
| Js.DecimalRoundTrip | saacloudnery/app/api/video-upload/route.ts:118 | Reading `String(n)` back as a decimal number gives `n`, so the stored size loses nothing. |
| MediaEffects.EffectsMap | saacloudnery/app/api/media-effects/route.ts:31-67 | Has no contract of its own. It is `effectsMap`, the 22 identifiers with their fragments as written. `MediaEffects.FragmentsWellFormed` states that every fragment is non-empty and free of `/`, and `MediaEffects.CatalogAgreesWithMap` that its keys are the identifiers GET lists. |
| MediaEffects.FragmentsWellFormed | saacloudnery/app/api/media-effects/route.ts:31-67 | Every fragment in the effects map is non-empty, so `filter(Boolean)` keeps it, and contains no `/`. |
| MediaEffects.FragmentWellFormed | saacloudnery/app/api/media-effects/route.ts:31-67 | The fragment of each single key of the map is non-empty and has no `/`. |
| MediaEffects.AvailableEffects | saacloudnery/app/api/media-effects/route.ts:118-155 | Has no contract of its own. It is the `availableEffects` catalogue, seven categories in the literal's order. `MediaEffects.CatalogIdList` states the identifiers of each category, and `MediaEffects.CatalogAgreesWithMap` that they are the map's keys. |
| MediaEffects.CatalogAgreesWithMap | saacloudnery/app/api/media-effects/route.ts:31-67 | The GET catalogue has 7 categories and 22 distinct identifiers. Its identifiers are exactly the 22 keys of the POST map, in both directions. |
| MediaEffects.CatalogIdList | saacloudnery/app/api/media-effects/route.ts:118-155 | The catalogue lists its identifiers in the literal's order, category by category. |
| MediaEffects.CatalogIdsAppend | saacloudnery/app/api/media-effects/route.ts:118-155 | The identifiers of two concatenated category lists are the concatenation of their identifiers. |
| MediaEffects.EffectIdsDistinct | saacloudnery/app/api/media-effects/route.ts:118-155 | The 22 catalogue identifiers are pairwise distinct. |
| MediaEffects.DistinctCardinality | saacloudnery/app/api/media-effects/route.ts:118-155 | A list of distinct identifiers has as many members as it has elements. |
| MediaEffects.EffectIdsAreKeys | saacloudnery/app/api/media-effects/route.ts:31-67 | The set of catalogue identifiers equals the key set of the map. |
| MediaEffects.NativeFunction | saacloudnery/app/api/media-effects/route.ts:71-73 | Has no contract of its own. It is the text `join` gives a built-in function. `MediaEffects.NativeFunctionWellFormed` and `MediaEffects.ObjectFunctionText` state its properties. |
| MediaEffects.NativeFunctionWellFormed | saacloudnery/app/api/media-effects/route.ts:71-73 | The text of a built-in function whose name has no `/` is non-empty and has no `/`. |
| MediaEffects.ObjectFunctionText | saacloudnery/app/api/media-effects/route.ts:71-73 | The `Object` function joins as `function Object() { [native code] }`. |
| MediaEffects.InheritedText | saacloudnery/app/api/media-effects/route.ts:71-73 | Has no contract of its own. It gives the string each inherited member joins to. `MediaEffects.InheritedMembersWellFormed` states its property. |
| MediaEffects.InheritedMembers | saacloudnery/app/api/media-effects/route.ts:71 | Has no contract of its own. It is what `effectsMap[effect]` finds on `Object.prototype`: the twelve inherited names with the text each joins to. `MediaEffects.InheritedMembersWellFormed` and `MediaEffects.InheritedShows` state its properties. |
| MediaEffects.InheritedMembersWellFormed | saacloudnery/app/api/media-effects/route.ts:71-73 | Every inherited `Object.prototype` member joins to a non-empty string without `/`, so `filter(Boolean)` keeps it. |
| MediaEffects.OwnKeysShadow | saacloudnery/app/api/media-effects/route.ts:71 | For any own keys, a name is readable exactly when it is an own key or an inherited name. An own key reads its own value, and any other inherited name reads the inherited member. |
| MediaEffects.OwnKeyShadows | saacloudnery/app/api/media-effects/route.ts:71 | An own key is readable and reads its own value. |
| MediaEffects.InheritedShows | saacloudnery/app/api/media-effects/route.ts:71 | An inherited name that is not an own key is readable and reads the inherited member. |
| MediaEffects.ConstructorIsInherited | saacloudnery/app/api/media-effects/route.ts:71 | `constructor` is inherited as the `Object` function. |
| MediaEffects.ReadableWellFormed | saacloudnery/app/api/media-effects/route.ts:71-72 | Over well-formed own keys, every readable property is non-empty and free of `/`. |
| MediaEffects.ReadableProperties | saacloudnery/app/api/media-effects/route.ts:71 | Has no contract of its own. It is every property `effectsMap[effect]` can read: the own keys over the inherited members. `MediaEffects.OwnKeysShadow` states that own keys win, and `MediaEffects.ReadablePropertiesWellFormed` that every entry is well formed. |
| MediaEffects.ReadablePropertiesWellFormed | saacloudnery/app/api/media-effects/route.ts:31-72 | Every property `effectsMap[name]` can read is well formed. The readable names are exactly the 22 keys and the inherited names. A key reads its own fragment. |
| MediaEffects.NotAProperty | saacloudnery/app/api/media-effects/route.ts:71 | A name that is neither a key nor an inherited name reads `undefined`. |
| MediaEffects.Property | saacloudnery/app/api/media-effects/route.ts:71 | Has no contract of its own. It is `obj[id]` over a lookup table, `undefined` when the name is not in the table. The lemmas below state what the pipeline built on it does. |
| MediaEffects.LookupEach | saacloudnery/app/api/media-effects/route.ts:70-71 | Has no contract of its own. It is the `map` step. `MediaEffects.PipelineIsKnownFragments` and `MediaEffects.PropertiesAgreeOffPrototype` state its properties. |
| MediaEffects.KeepTruthy | saacloudnery/app/api/media-effects/route.ts:72 | `filter(Boolean)` keeps at most as many values as it is given, and none of them is empty. |
| MediaEffects.Transforms | saacloudnery/app/api/media-effects/route.ts:70-73 | Has no contract of its own. It is the `map`, `filter` and `join` chain over a lookup table. The lemmas below state its properties for every well-formed table. |
| MediaEffects.KnownFragments | saacloudnery/app/api/media-effects/route.ts:70-72 | Has no contract of its own. It is the independent reference for the chain: the entries of the identifiers found, in request order. |
| MediaEffects.PipelineIsKnownFragments | saacloudnery/app/api/media-effects/route.ts:70-72 | For any well-formed table, looking up and then filtering gives the entries of the identifiers found, in request order, one per occurrence. |
| MediaEffects.TransformsIsJoinOfKnown | saacloudnery/app/api/media-effects/route.ts:70-73 | For any well-formed table, the transformation string is the comma-join of the entries found, in request order. |
| MediaEffects.KnownFragmentsConcat | saacloudnery/app/api/media-effects/route.ts:70-72 | Request order is kept: the entries found for `a + b` are those for `a` followed by those for `b`. |
| MediaEffects.KnownFragmentsFromTable | saacloudnery/app/api/media-effects/route.ts:31-72 | Every entry found is a value of the table, non-empty and free of `/`. |
| MediaEffects.KnownFragmentsEmptyIff | saacloudnery/app/api/media-effects/route.ts:70-72 | Nothing is found exactly when no requested identifier is in the table. |
| MediaEffects.UnknownContributesNothing | saacloudnery/app/api/media-effects/route.ts:70-73 | For any well-formed table, an identifier not in it leaves the transformation string unchanged, wherever it stands in the request. |
| MediaEffects.NoDeduplication | saacloudnery/app/api/media-effects/route.ts:70-72 | An identifier in the table requested twice, next to each other or with other identifiers between, contributes its entry at both places, with what lies between compiled as it would be alone. |
| MediaEffects.KnownFragmentsOne | saacloudnery/app/api/media-effects/route.ts:70-72 | A single identifier in the table gives exactly its entry. |
| MediaEffects.KnownFragmentsFoundThenNot | saacloudnery/app/api/media-effects/route.ts:70-72 | An identifier in the table followed by one that is not gives just the first entry. |
| MediaEffects.TransformsEmptyIff | saacloudnery/app/api/media-effects/route.ts:70-77 | For any well-formed table, the transformation string is empty exactly when no identifier is in the table (`MediaEffects.PostAppliedIff` states the refusal that follows). The string never contains `/`. When something is found, it starts with the first entry found. |
| MediaEffects.JoinHasNoSlash | saacloudnery/app/api/media-effects/route.ts:73 | Comma-joining parts that hold no `/` gives a string without `/`. |
| MediaEffects.TransformsConcat | saacloudnery/app/api/media-effects/route.ts:70-73 | For two requests that each compile to something, the string for their concatenation is the two strings joined by a comma. |
| MediaEffects.CatalogEffectsCompile | saacloudnery/app/api/media-effects/route.ts:31-73 | Every effect GET lists, requested alone, compiles to exactly its map fragment, which is non-empty. This holds both through the own keys and through every readable property. |
| MediaEffects.PropertiesAgreeOffPrototype | saacloudnery/app/api/media-effects/route.ts:71 | On requests that name no inherited member, reading every property and reading only the own keys give the same lookups and the same string, for any own keys. |
| MediaEffects.MediaTypeOrDefault | saacloudnery/app/api/media-effects/route.ts:12 | Has no contract of its own. It is the `mediaType = "image"` default, which applies to an absent field. `MediaEffects.PostAppliedContents` states the echoed media type. |
| MediaEffects.MediaPath | saacloudnery/app/api/media-effects/route.ts:79 | The URL path segment is always `video` or `image`. |
| MediaEffects.UploadPrefix | saacloudnery/app/api/media-effects/route.ts:28-81 | Has no contract of its own. It is the part both URLs share. |
| MediaEffects.OriginalUrl | saacloudnery/app/api/media-effects/route.ts:80 | Has no contract of its own. `MediaEffects.TransformedIsOriginalWithInsertion` and `MediaEffects.PostAppliedContents` state its shape. |
| MediaEffects.TransformedUrl | saacloudnery/app/api/media-effects/route.ts:81 | Has no contract of its own. `MediaEffects.TransformedUrlRoundTrip` states that it reads back. |
| MediaEffects.TransformedIsOriginalWithInsertion | saacloudnery/app/api/media-effects/route.ts:80-81 | The transformed URL is the original URL with `{transforms}/` inserted just before the public id, which is what follows the shared prefix. |
| MediaEffects.SplitAtFirstOf | saacloudnery/app/api/media-effects/route.ts:81 | Splitting `a + c + b` at its first `c`, where `a` has no `c`, gives back `a` and `b`. |
| MediaEffects.TransformedUrlRoundTrip | saacloudnery/app/api/media-effects/route.ts:81 | A transformation string without `/` and the public id can be read back from the transformed URL, even when the public id itself has `/`. |
| MediaEffects.EstimatedCompression | saacloudnery/app/api/media-effects/route.ts:84 | Has no contract of its own. `MediaEffects.PostAppliedContents` states that the estimate is "60-80%" exactly when `autoCompress` was asked for. |
| MediaEffects.PostWith | saacloudnery/app/api/media-effects/route.ts:4-106 | For any lookup table, every refusal carries status 400, 401 or 500. |
| MediaEffects.Post | saacloudnery/app/api/media-effects/route.ts:4-106 | Has no contract of its own. It is the handler as written, over every readable property. `MediaEffects.AsWrittenAppliedIff` and `MediaEffects.InheritedNameIsApplied` state its behaviour. |
| MediaEffects.PostIntended | saacloudnery/app/api/media-effects/route.ts:4-106 | Has no contract of its own. It is the handler over the own keys only. `MediaEffects.IntendedAppliedIff` states its behaviour. |
| MediaEffects.PostCheckOrder | saacloudnery/app/api/media-effects/route.ts:6-26 | The checks run in the order session, body, public id, effects list, cloud name. The first that fails decides the response, with its exact status and error text. An unreadable body is 500 "Internal server error". |
| MediaEffects.PostAppliedIff | saacloudnery/app/api/media-effects/route.ts:6-77 | For any well-formed table, a request is applied exactly when every check passes and some requested identifier is in the table. When nothing requested is in the table, the answer is 400 "No valid effects found". |
| MediaEffects.AsWrittenAppliedIff | saacloudnery/app/api/media-effects/route.ts:6-77 | As written, a request that passes the checks is applied exactly when it names a key of the map or an inherited member. |
| MediaEffects.IntendedAppliedIff | saacloudnery/app/api/media-effects/route.ts:6-77 | Over the own keys, a request that passes the checks is applied exactly when it names a key of the map. |
| MediaEffects.PostAppliedContents | saacloudnery/app/api/media-effects/route.ts:79-102 | For any well-formed table, a successful response echoes the raw effects, the public id and the media type ("image" when absent). Its transformation string is the non-empty join of the entries found, each a value of the table. Both URLs have the shape the template strings build, and read back. The estimate is "60-80%" exactly when `autoCompress` was asked for, and "0%" otherwise. |
| MediaEffects.AutoCompressIsApplied | saacloudnery/app/api/media-effects/route.ts:70-84 | Once the earlier checks pass, a request naming `autoCompress` is always applied, with a 60-80% estimate, over any well-formed table holding `autoCompress`. |
| MediaEffects.AutoCompressIsAProperty | saacloudnery/app/api/media-effects/route.ts:32 | `autoCompress` reads as `q_auto,f_auto`. |
| MediaEffects.ScenarioKnownAndUnknown | saacloudnery/app/api/media-effects/route.ts:70-102 | As written, `["autoCompress", "bogusEffect"]` on an image compiles to `q_auto,f_auto`, with the matching URLs and a 60-80% estimate. |
| MediaEffects.KnownAndUnknown | saacloudnery/app/api/media-effects/route.ts:70-102 | The same scenario holds over every well-formed table that reads `autoCompress` as `q_auto,f_auto` and lacks `bogusEffect`. |
| MediaEffects.ScenarioOnlyUnknown | saacloudnery/app/api/media-effects/route.ts:70-77 | As written, a request naming only an unknown identifier gets 400 "No valid effects found". |
| MediaEffects.OnlyUnknown | saacloudnery/app/api/media-effects/route.ts:70-77 | Over any well-formed table, a request naming one identifier the table lacks gets 400 "No valid effects found". |
| MediaEffects.OneKnown | saacloudnery/app/api/media-effects/route.ts:70-102 | Over any well-formed table, a request naming one identifier in it is applied, with that identifier's entry as its transformation string. |
| MediaEffects.SupportedImageFormats | saacloudnery/app/api/media-effects/route.ts:160 | Has no contract of its own. It is the `images` list GET returns. `MediaEffects.Get` states that the catalogue carries it, and `MediaEffects.SupportedFormatsListed` its contents. |
| MediaEffects.SupportedVideoFormats | saacloudnery/app/api/media-effects/route.ts:161 | Has no contract of its own. It is the `videos` list GET returns. `MediaEffects.Get` states that the catalogue carries it, and `MediaEffects.SupportedFormatsListed` its contents. |
| MediaEffects.SupportedFormatsListed | saacloudnery/app/api/media-effects/route.ts:159-162 | Each list holds six extensions with none repeated, no extension is in both, and `webp` and `avif`, the targets of the `webpFormat` and `avifFormat` fragments, are listed image formats. |
| MediaEffects.Get | saacloudnery/app/api/media-effects/route.ts:109-163 | The catalogue is returned exactly to a signed-in user, and everyone else gets 401 "Unauthorized". The identifiers listed are exactly the keys POST accepts. |
| MediaEffects.ConstructorIsAProperty | saacloudnery/app/api/media-effects/route.ts:71 | `constructor` is no key of the map, but it is a readable property: the `Object` function. |
| MediaEffects.ConstructorSlipsThrough | saacloudnery/app/api/media-effects/route.ts:71-102 | Over any well-formed own keys without `constructor`, a request naming `constructor` is applied, and its transformation string is the `Object` function's text. |
| MediaEffects.InheritedNameIsApplied | saacloudnery/app/api/media-effects/route.ts:71-102 | `constructor` is no effect. As written, a request naming it is applied with `function Object() { [native code] }` as its transformation string. Over the own keys it gets 400 "No valid effects found". |
| VideoUpload.HttpStatus | saacloudnery/app/api/video-upload/route.ts:29-164 | Has no contract of its own. It is the status of a response: 200 for the success response, otherwise the failure's. `VideoUpload.SuccessIff`, `VideoUpload.UploadErrorIsServiceError` and `VideoUpload.DbFailureLeavesOrphan` state the status of each outcome. |
| VideoUpload.MaxSize | saacloudnery/app/api/video-upload/route.ts:69 | Has no contract of its own. It is `MAX_SIZE`, 70 MiB. `VideoUpload.SizeLimitInclusive`, `VideoUpload.OneByteOverRefused` and `VideoUpload.TooLargeMessageNames70` state the limit and its message. |
| VideoUpload.Failure.Status | saacloudnery/app/api/video-upload/route.ts:29-164 | Has no contract of its own. It gives the status of each error response. `VideoUpload.Admit`, `VideoUpload.Classify` and `VideoUpload.SuccessIff` state its range. |
| VideoUpload.Failure.Error | saacloudnery/app/api/video-upload/route.ts:29-164 | Has no contract of its own. It gives the `error` text of each error response, as written in the handler. |
| VideoUpload.Failure.Message | saacloudnery/app/api/video-upload/route.ts:29-164 | Has no contract of its own. It gives the `message` text of each error response. `VideoUpload.TooLargeMessageNames70` states the one that is computed. |
| VideoUpload.UploadOptions | saacloudnery/app/api/video-upload/route.ts:91-95 | Has no contract of its own. `VideoUpload.AdmittedRequestsUpload` states the options requested. |
| VideoUpload.TooLargeMessage | saacloudnery/app/api/video-upload/route.ts:73 | Has no contract of its own. `VideoUpload.TooLargeMessageNames70` states its text for the limit. |
| VideoUpload.Classify | saacloudnery/app/api/video-upload/route.ts:141-164 | The exception handler always answers 500 with one of its three error codes. |
| VideoUpload.ClassifyIff | saacloudnery/app/api/video-upload/route.ts:145-164 | For each of the three codes, the exact condition under which it is chosen. A message naming Cloudinary wins over "Prisma" or "database". A thrown value that is not an `Error` is always "Upload failed". |
| VideoUpload.CredentialsConfigured | saacloudnery/app/api/video-upload/route.ts:36-38 | Has no contract of its own. It holds when the cloud name, API key and API secret are all truthy. `VideoUpload.AdmitIff` and `VideoUpload.AdmitOrder` state that the route is refused with 500 "Server configuration error" otherwise. |
| VideoUpload.Admit | saacloudnery/app/api/video-upload/route.ts:26-75 | A refusal carries 400, 401 or 500. An admitted file is at most 70 MiB, with a title that does not trim to nothing. |
| VideoUpload.AdmitIff | saacloudnery/app/api/video-upload/route.ts:26-75 | A request is admitted exactly when it has a session, all three credentials and a readable form, and its file is at most 70 MiB with a non-blank title. |
| VideoUpload.AdmitOrder | saacloudnery/app/api/video-upload/route.ts:26-75 | Each check is reported only when the earlier ones pass: session, credentials, form parse (a thrown value is classified), file, title, then any file over 70 MiB is "File too large". |
| VideoUpload.TitleAccepted | saacloudnery/app/api/video-upload/route.ts:61 | Has no contract of its own. It accepts a title that the route's title test lets through: present, and not empty after `trim()`. `VideoUpload.TitleAcceptedIff` and `VideoUpload.BlankTitleRefused` state its properties. |
| VideoUpload.TitleAcceptedIff | saacloudnery/app/api/video-upload/route.ts:61 | A title is accepted exactly when it is present and has a character that is not white space. |
| VideoUpload.Record | saacloudnery/app/api/video-upload/route.ts:112-121 | Has no contract of its own. `VideoUpload.RecordFields` and `VideoUpload.RecordTrimmed` state the row it builds. |
| VideoUpload.PostSpec | saacloudnery/app/api/video-upload/route.ts:26-139 | Has no contract of its own. It says what one request does. `VideoUpload.RefusedHasNoEffect`, `VideoUpload.SuccessIff` and the lemmas below state its properties. |
| VideoUpload.AfterAdmit | saacloudnery/app/api/video-upload/route.ts:84-139 | Has no contract of its own. It is what an admitted request does. `VideoUpload.InsertOnlyAfterUpload`, `VideoUpload.UploadErrorIsServiceError` and `VideoUpload.UploadThrowIsClassified` state its properties. |
| VideoUpload.UploadRoute.Post | saacloudnery/app/api/video-upload/route.ts:21-139 | Its response is the one `PostSpec` gives. It appends exactly the upload requested, the asset stored and the row written. Every row keeps naming an asset the store holds. |
| VideoUpload.RefusedHasNoEffect | saacloudnery/app/api/video-upload/route.ts:26-75 | A refused request gets the refusal as its response and asks nothing of the store or the database. |
| VideoUpload.AdmittedRequestsUpload | saacloudnery/app/api/video-upload/route.ts:84-108 | An admitted request asks for exactly one upload: a video in `video-uploads` at auto quality as mp4, with a 120000 ms timeout and the file's size. |
| VideoUpload.InsertOnlyAfterUpload | saacloudnery/app/api/video-upload/route.ts:89-121 | An asset is stored only after an upload was requested and reported success. A row is written only after that, and it names that asset. |
| VideoUpload.UploadErrorIsServiceError | saacloudnery/app/api/video-upload/route.ts:97-151 | An error the store passes to the upload callback always ends as 500 "Upload service error", whatever its message, with nothing stored. |
| VideoUpload.UploadThrowIsClassified | saacloudnery/app/api/video-upload/route.ts:89-164 | A value thrown by the call that starts the upload reaches the catch unwrapped and is classified by its own message, with status 500. No asset is stored and no row is written. |
| VideoUpload.WrappedUploadErrorClassified | saacloudnery/app/api/video-upload/route.ts:100 | The wrapped upload error always mentions Cloudinary, so the handler classifies it as an upload service error. |
| VideoUpload.DbFailureLeavesOrphan | saacloudnery/app/api/video-upload/route.ts:112-164 | When the row cannot be written, the asset stays stored with no row, and the response is a 500 chosen from the thrown value. |
| VideoUpload.SuccessIff | saacloudnery/app/api/video-upload/route.ts:126-139 | A request succeeds, with status 200, exactly when it is admitted, the upload succeeds and the row is written. The response carries that row and its database id and timestamp. Any other outcome is 400, 401 or 500 with no row written. |
| VideoUpload.RecordFields | saacloudnery/app/api/video-upload/route.ts:112-121 | The row holds the trimmed, non-blank title and the trimmed description, or "" when none was sent. It also holds the asset's public id, the original size as sent, and the stored size as digits that read back as the store's byte count. The duration is the store's, or 0 when missing. |
| VideoUpload.AdmittedFields | saacloudnery/app/api/video-upload/route.ts:47-51 | An admitted request carries the form's own file, title, description and original size. |
| VideoUpload.RecordTrimmed | saacloudnery/app/api/video-upload/route.ts:114-115 | The title and description stored are already trimmed. |
| VideoUpload.TooLargeMessageNames70 | saacloudnery/app/api/video-upload/route.ts:69-74 | The size message reads "File size must be less than 70MB". |
| VideoUpload.SizeLimitInclusive | saacloudnery/app/api/video-upload/route.ts:69-70 | A file of exactly 70 MiB passes the size check. |
| VideoUpload.OneByteOverRefused | saacloudnery/app/api/video-upload/route.ts:69-74 | One byte over the limit is refused as "File too large". |
| VideoUpload.BlankTitleRefused | saacloudnery/app/api/video-upload/route.ts:61-66 | A title of white space only is refused, although it is a non-empty string. |
| VideoUpload.TitleBeforeSize | saacloudnery/app/api/video-upload/route.ts:61-75 | An oversized file with no title is reported as missing its title, not as too large. |
| Middleware.IsPublicRoute | saacloudnery/middleware.ts:4-9 | Has no contract of its own. It is the public-page matcher. `Middleware.PublicRouteIsNotApi` and `Middleware.SignedOutReachesPublicRoutes` state its properties. |
| Middleware.IsApiRequest | saacloudnery/middleware.ts:20 | Has no contract of its own. It is `pathname.startsWith("/api")`. `Middleware.PublicRouteIsNotApi` and `Middleware.SignedOutApiRequiresSignIn` state its use. |
| Middleware.IsPublicApiRoute | saacloudnery/middleware.ts:10-12 | Has no contract of its own. It matches exactly `/api/videos`; the matcher's trailing-slash and case tolerance is listed under "## Left out". `Middleware.SignedOut` states its use. |
| Middleware.Decide | saacloudnery/middleware.ts:15-40 | The middleware only ever redirects to `/home` or `/sign-in`, or lets the request through. |
| Middleware.RunsOn | saacloudnery/middleware.ts:42-44 | Has no contract of its own. It is the paths `config.matcher` selects. `Middleware.SkippedPathsPassThrough` states what the others get. |
| Middleware.Handle | saacloudnery/middleware.ts:15-44 | Has no contract of its own. The middleware decides on the paths it runs on, and every other request goes through. `Middleware.SkippedPathsPassThrough` states its property. |
| Middleware.PublicRouteIsNotApi | saacloudnery/middleware.ts:4-9 | No public page starts with `/api`. |
| Middleware.SecondCheckNeverFires | saacloudnery/middleware.ts:27-36 | Whenever the second signed-out check holds, the first one already held, so the second can never change the outcome. |
| Middleware.DecideIsSimplified | saacloudnery/middleware.ts:23-38 | The handler equals the two-case decision without the redundant check, on every session and path. |
| Middleware.SignedIn | saacloudnery/middleware.ts:23-25 | A signed-in user goes to `/home` exactly from the public pages other than `/home`. They are otherwise let through and never sent to sign in. |
| Middleware.SignedOut | saacloudnery/middleware.ts:27-36 | A signed-out user is sent to `/sign-in` exactly when the route is neither a public page nor `/api/videos`. They are otherwise let through and never sent to `/home`. |
| Middleware.RedirectsSettle | saacloudnery/middleware.ts:23-36 | A redirect lands on a path the middleware lets through for the same session, so redirects never loop. |
| Middleware.SignedOutReachesPublicRoutes | saacloudnery/middleware.ts:4-31 | Signed out, `/`, `/home`, anything under `/sign-in` or `/sign-up`, and `/api/videos` are let through. |
| Middleware.SignedOutApiRequiresSignIn | saacloudnery/middleware.ts:34-36 | Signed out, every other `/api` path is sent to `/sign-in`. |
| Middleware.SkippedPathsPassThrough | saacloudnery/middleware.ts:42-44 | Paths the matcher skips are never redirected: files with an extension and `/_next` assets, outside `/api` and `/trpc`. |

## Left out

- Clerk's `auth()` becomes an input: the user id, absent when signed out. Its failures, which would reach the catch blocks, are not modelled.
- The environment variables are inputs rather than reads of `process.env`.
- The Cloudinary SDK is not called.
  - Its upload result or error message is an input.
  - The module-level `cloudinary.config` call is not modelled.
  - Reading the file's bytes (`file.arrayBuffer()`, `Buffer.from`) is taken to succeed. A value it throws would reach the catch before any upload is requested. The model has no outcome for that case.
  - `UploadThrows` stands for a throw from `upload_stream` or `end`. The route has then asked for the upload, so the request is recorded.
  - The upload request is recorded only as its options and the file's size.
  - The 120000 ms timeout is a recorded option; its effect is not modelled.
- Prisma is not called: the result of `prisma.video.create` (id and timestamp, or a thrown value) is an input.
- `prisma.$disconnect()` in the `finally` block is not modelled. Its success leaves the response as the `try` or `catch` returned it. A rejection from it would replace that response with an unhandled error, which the framework answers with a generic 500, even after the asset was stored and the row written. The model has no outcome for that case.
- Logging (`console.log`, `console.error`) is not modelled. This includes the `toFixed(2)` size in the upload log.
- The `success: true` field of both success responses is not modelled. It is a constant.
- The redirect `Location` is modelled as a path only. The absolute URL built from the request URL is not modelled.
- MediaEffects.PostWith: JSON fields are modelled as strings and string lists, or absent. Other JSON values are not modelled.
  - A number, an object, or `null` as `mediaType`: the default applies to an absent field only.
  - An `effects` that is a non-empty string rather than a list.
  - An effect identifier that is not a string. The object would be indexed by its `String` form.
- MediaEffects.ReadableProperties: holds the twelve standard members of `Object.prototype`. A built-in function joins as `function name() { [native code] }`, the text engines give it. Changes a program makes to `Object.prototype` are not modelled.
- VideoUpload.UploadRoute.Post: form fields are modelled as strings and the file as its size. A form field that carries a file in place of a string, or a `file` field that is a string, is not modelled.
- VideoUpload.Record: a NaN duration from the store is not modelled. `duration` is a real, and a missing duration becomes 0.
- Js.DecimalString: models `String(n)` only for non-negative integers. It does not model the exponent notation JavaScript uses from 10^21 up.
- VideoUpload.TooLargeMessage: models the size message with integer division. The source divides as floating point, which gives the same 70 for the 70 MiB limit.
- Middleware.IsPublicRoute: treats the `(.*)` patterns as prefix matches and the other patterns as exact matches.
  - The route matcher's tolerance of a trailing slash is not modelled.
  - Its case-insensitivity is not modelled either.
- Middleware.IsPublicApiRoute: treats `/api/videos` as an exact match. The route matcher built for it also accepts a trailing slash and ignores case, so a signed-out `/api/videos/` or `/API/videos` passes in the source but is sent to `/sign-in` in the model. That tolerance and case-insensitivity are not modelled.
- Middleware.RunsOn: reads `config.matcher` as path predicates. It does not model the framework's full regular-expression matching.
- MediaEffects.Get: its catch branch is not modelled. It is reached only when `auth()` throws, which the model does not do.
- The remaining files of the repository are not part of this model: the pages, the components, the other API routes and the Prisma schema.

## Findings

| source | as written | input that shows it | evidently intended | confidence | as-written member | corrected member |
|---|---|---|---|---|---|---|
| saacloudnery/app/api/media-effects/route.ts:71 | `effectsMap[effect]` reads a property of a plain object, so identifiers such as `constructor` or `toString` find inherited `Object.prototype` members. Those are truthy, survive `filter(Boolean)`, and `join` turns them into their source text. | `effects: ["constructor"]` compiles to `function Object() { [native code] }` and is applied, instead of getting 400 "No valid effects found". | Only the map's own keys are effects, so a request naming only such identifiers is refused with 400. `MediaEffects.PostIntended` looks up own keys only. | not executed | MediaEffects.InheritedNameIsApplied | MediaEffects.IntendedAppliedIff |
