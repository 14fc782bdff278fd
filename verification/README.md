# tenside/core-bundle: the decision logic, in Dafny

tenside/core-bundle is the Symfony bundle behind the tenside web installer
and package manager. Most of its classes are thin HTTP or console fronts
over collaborators from tenside/core, Composer and Symfony. This project
models the logic the bundle's own classes contain and proves what that logic
promises. Each collaborator becomes an input or a function parameter. That
covers the task list's `queue`/`getNext`, `\JWT::encode`/`decode`, md5,
Composer's `VersionParser` and `ConfigValidator`, `php -l`, packagist, the
password encoder, the URL generator, `pcntl_fork`, the lock and the spawned
process.

One Dafny module per class of the bundle:

- `TaskRunner` (TaskRunnerController) holds the task-queue HTTP actions.
  Each action is a function from the task list and the collaborators'
  answers to an outcome. An outcome is the reply or the exception thrown,
  the task list afterwards, and the effects on the lock, the process
  spawner and the task's assets, in order.
- `RunTaskCommand` holds the worker command: the fork decision table and
  the exit codes.
- `JwtAuthenticator` covers the bearer token. It is read from the
  Authorization header as section 2.1 of RFC 6750 describes, with the
  scheme matched case-insensitively as section 2.1 of RFC 7235 allows. It is
  accepted only for this installation's audience (section 4.1.3 of RFC
  7519). Issued tokens carry the claims of sections 4.1.6, 4.1.7, 4.1.3 and
  4.1.4 of RFC 7519.
- `PermissionVoter` and `Roles` (UserInformationInterface) hold the route
  role vote and the role bits.
- `ApiDocHandler` (TensideApiDocHandler) converts the field trees.
- `ExceptionListener` turns exceptions into JSON responses and formats the
  exception chain.
- `TaskFactoryPass` (AddTaskFactoryPass) orders the task factories.
- `SelfTestController`, `InstallProject`, `SelfUpdate`,
  `PackageController`, `AuthController`, `VersionConstraint`, `ComposerJson`,
  `AppKernel` and `CliScript` hold the remaining controllers, the
  self-update command and the CLI script determinator.

Shared modules model PHP itself:

- `Wrappers` holds `Option` and `Result`.
- `Php` holds values, truthiness, `isset`, the `(int)` cast and decimal
  rendering.
- `Dict` is an ordered array with `array_merge`.
- `Text` holds the string functions.
- `JsonArray` gives path access into decoded JSON.
- `Errors` lists the exception classes the controllers throw.

Where the code and its own test disagree, the model follows the code.
`putComposerJsonAction` answers under the keys `error` and `warning`, while
its test reads `errors` and `warnings`. The model keeps `error` and
`warning`. The two slips listed under "## Findings" are modelled as written
as well: the operations use the code's own tests, and separately named
members state the evidently intended behaviour and how it differs.

## Model

| member | source | states |
|---|---|---|
| TaskRunner.Find | src/Controller/TaskRunnerController.php:157-162 | the lookup fails exactly when no task carries the id; otherwise it yields a task of the list carrying that id |
| TaskRunner.FindUnique | src/Controller/TaskRunnerController.php:157 | with distinct ids, looking up a task's id yields that very task |
| TaskRunner.GetTasksAction | src/Controller/TaskRunnerController.php:85-94 | 200, status OK, key 'tasks'; with distinct ids, entry i is task i's view under task i's id, one per id in list order |
| TaskRunner.ListingOfUniqueList | src/Controller/TaskRunnerController.php:88-91 | keying the views by id over the first k ids gives the first k tasks in order: setting an id never overwrites an earlier one |
| TaskRunner.OutputFrom | src/Controller/TaskRunnerController.php:439 | the output is whole without an offset, the suffix from the offset otherwise, empty past the end, and always a suffix of the output |
| TaskRunner.View | src/Controller/TaskRunnerController.php:432-441 | the view carries the task's id, status, type and creation date unchanged and a suffix of its output, the whole output without an offset |
| TaskRunner.CreateJsonResponse | src/Controller/TaskRunnerController.php:453-460 | the given tasks, status and HTTP status, under the key 'tasks' exactly for a collection and 'task' otherwise |
| TaskRunner.GetTaskAction | src/Controller/TaskRunnerController.php:154-168 | NotFound 'No such task.' exactly for an unknown id; otherwise the task's view, its output taken from the cast 'offset' query value when present |
| TaskRunner.OffsetOf | src/Controller/TaskRunnerController.php:164-166 | an offset is used exactly when the query has 'offset' |
| TaskRunner.OffsetRoundTrip | src/Controller/TaskRunnerController.php:165 | a decimal offset sent back is read as the same number, so the output resumes exactly there |
| TaskRunner.AddTaskAction | src/Controller/TaskRunnerController.php:220-243 | empty body or no 'type' answers 406 'Invalid payload'; a rejection by the list answers 406 carrying the list's own message; nothing is queued on any refusal; success appends one task and answers 201 |
| TaskRunner.AddTaskAnswersNewTask | src/Controller/TaskRunnerController.php:238-243 | a queued task with a fresh id is answered with exactly that task, the list gaining only it |
| TaskRunner.Remove | src/Controller/TaskRunnerController.php:289 | the id is gone afterwards; every other task stays and no task is added |
| TaskRunner.RemoveKeepsOthers | src/Controller/TaskRunnerController.php:289 | removing one id leaves the lookup of every other id unchanged |
| TaskRunner.DeleteTaskAction | src/Controller/TaskRunnerController.php:275-295 | unknown id answers 404 and a running task 406, both with the list unchanged; otherwise OK, the assets removed, the id gone and every other lookup unchanged |
| TaskRunner.CommandLine | src/Controller/TaskRunnerController.php:392-400 | the worker command line is the CLI script, 'tenside:runtask', the task id, '-v', '--no-interaction' |
| TaskRunner.SpawnFailure | src/Controller/TaskRunnerController.php:402-421 | a RuntimeException exactly when the process has stopped with an exit code that is neither null nor 0 |
| TaskRunner.RunEffects | src/Controller/TaskRunnerController.php:350-374 | the lock is taken iff forking; at most one spawn, present iff a worker is spawned; release iff forking and spawned; nothing precedes the lock and nothing follows the release |
| TaskRunner.RunAction | src/Controller/TaskRunnerController.php:348-377 | 406 'Task already running' iff forking and the lock is refused; 404 without a next task; a non-pending task is answered unchanged without spawn; a pending one is spawned once, with the spawn's failure propagated after the release; the list never changes |
| RunTaskCommand.Fork | src/Command/RunTaskCommand.php:98-123 | disabled forking or no pcntl continues without forking; pid -1 throws RuntimeException; any other non-zero pid tells the parent to exit; pid 0 continues |
| RunTaskCommand.Execute | src/Command/RunTaskCommand.php:69-84 | InvalidArgumentException 'Task not found: <id>' exactly for an unknown id; otherwise exit code 0 iff the runner succeeds on the task with its log file, else 1 |
| RunTaskCommand.LogFile | src/Command/RunTaskCommand.php:81-83 | the log file lies in the kernel's log directory and has the extension '.log' |
| RunTaskCommand.LogFileNamesTask | src/Command/RunTaskCommand.php:79-83 | the log file's base name, less '.log', is 'task-<id>' in any log directory |
| RunTaskCommand.Run | src/Command/RunTaskCommand.php:53-62 | the forking parent exits with 0 without executing; otherwise the task is executed here; a failed fork is a RuntimeException |
| RunTaskCommand.SpawnedCommandRunsTask | src/Command/RunTaskCommand.php:39-46 | the command line the controller spawns names this command, and executing it runs exactly the task it was spawned for |
| JwtAuthenticator.DecodeToken | src/Security/JWTAuthenticator.php:192-204 | claims come back iff verification succeeds and the aud claim (null when absent) equals the local id; a missing aud with a local id, or any string aud without one, is 'not intended for us' |
| JwtAuthenticator.CreateToken | src/Security/JWTAuthenticator.php:88-116 | no token without a secret, without a header, or without the 'Bearer ' prefix in any case; otherwise a token exactly when the text after the first 7 characters decodes, carrying those claims and the provider key |
| JwtAuthenticator.SchemeIgnoresCase | src/Security/JWTAuthenticator.php:100-106 | any 7-character prefix that lower-cases to 'bearer ' is accepted and the token after it is what gets decoded |
| JwtAuthenticator.Payload | src/Security/JWTAuthenticator.php:217-222 | the custom values with iat forced to the current time, replacing a custom iat |
| JwtAuthenticator.Encode | src/Security/JWTAuthenticator.php:215-239 | iat is the time; jti hashes the payload before aud and exp exist; aud is the local id when there is one; exp is time plus lifetime when there is one; every other claim is the custom value |
| JwtAuthenticator.SetWhen | src/Security/JWTAuthenticator.php:228-234 | a claim is set only when there is a value for it, and no other claim changes |
| JwtAuthenticator.GetTokenForData | src/Security/JWTAuthenticator.php:74-77 | the token is a signature, with the configured secret, of claims holding the user's values, iat = time and, for a lifetime, exp = time + lifetime |
| JwtAuthenticator.DefaultTokenExpiresInAnHour | src/Security/JWTAuthenticator.php:74 | without a lifetime argument the token expires 3600 seconds after issue |
| JwtAuthenticator.IssuedTokenIsAccepted | src/Security/JWTAuthenticator.php:88-116 | whenever verification inverts signing, a token this authenticator issues, presented as 'Bearer <token>', is accepted back with the claims it was issued with |
| JwtAuthenticator.AuthenticateToken | src/Security/JWTAuthenticator.php:133-151 | LogicException without secret; AuthenticationException for non-object credentials and for an unknown user; otherwise the token with the same credentials, the provider key, the user and its roles |
| JwtAuthenticator.SupportsToken | src/Security/JWTAuthenticator.php:162-165 | only a JWT token is supported, and one exactly when it was issued for the given provider key |
| JwtAuthenticator.AuthenticatedTokenIsSupported | src/Security/JWTAuthenticator.php:162-165 | an authenticated token is supported under the provider key it was authenticated for |
| PermissionVoter.SupportsAttribute | src/Security/PermissionVoter.php:83-86 | true exactly for the string 'ROLE_CHECK' |
| PermissionVoter.SupportsClass | src/Security/PermissionVoter.php:93-96 | every class is supported |
| PermissionVoter.RouteRoles | src/Security/PermissionVoter.php:188-195 | every role in the route-role map is truthy |
| PermissionVoter.RouteRolesSound | src/Security/PermissionVoter.php:190-193 | every entry of the map comes from a route of that name whose required role it is |
| PermissionVoter.RouteRolesComplete | src/Security/PermissionVoter.php:190-193 | with distinct route names, every route with a truthy required role is in the map with that role |
| PermissionVoter.RequiredRole | src/Security/PermissionVoter.php:210-223 | the route consulted is the voted request's, else the current request's; with neither, the call fails as on a null request; a role found belongs to a route of that name; with distinct names, a protected route's role is found |
| PermissionVoter.VoteOn | src/Security/PermissionVoter.php:103-128 | abstain for a non-request without supported attribute, or without required role; a failing role lookup propagates; deny for a foreign user; grant iff some user role equals the required role after upper-casing |
| PermissionVoter.VoteOnProtectedRoute | src/Security/PermissionVoter.php:121-127 | on a protected route a user is granted iff one role matches in any letter case, and a foreign user is denied |
| PermissionVoter.VoteWithoutRequestFails | src/Security/PermissionVoter.php:210-218 | asked about a non-request with ROLE_CHECK while no request is current, the voter fails instead of voting |
| PermissionVoter.WarmUp | src/Security/PermissionVoter.php:133-142 | afterwards 'cache_dir' holds what it was read as (null when unset); every other option is untouched; a set option leaves the options identical |
| PermissionVoter.CacheFile | src/Security/PermissionVoter.php:186 | the cache file lies inside the cache directory and is named 'tenside_roles.php' |
| Roles.Bit | src/Security/UserInformationInterface.php:43-58 | each role is a single non-zero bit inside ROLE_ALL |
| Roles.BitsDisjoint | src/Security/UserInformationInterface.php:43-58 | two roles share a bit iff they are the same role |
| Roles.MaskRoundTrip | src/Security/UserInformationInterface.php:38-63 | ROLE_ALL is the union of the four bits and ROLE_NONE the empty one; role sets and masks within ROLE_ALL correspond one to one |
| Roles.AllHoldsEveryRole | src/Security/UserInformationInterface.php:63 | ROLE_ALL grants every role |
| ApiDocHandler.Copied | src/Annotation/TensideApiDocHandler.php:91-95 | every copied key is set in the field with the copied value |
| ApiDocHandler.CopiedNames | src/Annotation/TensideApiDocHandler.php:38-47 | exactly the whitelisted keys that are set are copied |
| ApiDocHandler.InferType | src/Annotation/TensideApiDocHandler.php:143-151 | the input is kept iff it is primitive or 'collection' in any letter case (or already 'string'); otherwise 'string' |
| ApiDocHandler.ConvertField | src/Annotation/TensideApiDocHandler.php:120-130 | children are converted under the same keys; the field is required iff flagged so or some converted child is required |
| ApiDocHandler.ConvertFieldShape | src/Annotation/TensideApiDocHandler.php:97-104 | a given dataType goes through inferType, else 'object' with children and 'string' without; readonly is the field's own flag |
| ApiDocHandler.RequiredPropagates | src/Annotation/TensideApiDocHandler.php:103-130 | a converted field is required iff it or any descendant at any depth is flagged required; readonly does not propagate |
| ApiDocHandler.Apply | src/Annotation/TensideApiDocHandler.php:59-75 | request fields replace same-named parameters and leave the others; the response is set from the description only when none was documented |
| ApiDocHandler.Handle | src/Annotation/TensideApiDocHandler.php:52-77 | a documented response is never replaced; only other annotations leave the documentation as it was |
| ApiDocHandler.HandleIgnoresOthers | src/Annotation/TensideApiDocHandler.php:54-57 | the result is the same as handling the ApiDescriptions alone |
| ExceptionListener.OnKernelException | src/EventListener/ExceptionListener.php:77-106 | status ERROR always; NotFound is 404; other HttpExceptions keep their code and headers; missing credentials is 401 with the message key; anything else is 500 with the exception chain formatted iff debug |
| ExceptionListener.NotFoundMessage | src/EventListener/ExceptionListener.php:121-124 | the exception's message, or 'Uri <uri> could not be found' when it is empty |
| ExceptionListener.NotFoundResponse | src/EventListener/ExceptionListener.php:119-133 | a 404 with status ERROR and no extra headers; the message is the exception's own when non-empty and otherwise names the request URI |
| ExceptionListener.InternalServerError | src/EventListener/ExceptionListener.php:179-201 | a 500 with status ERROR and the standard status text; the exception chain, formatted as FormatException formats it (one entry per chained exception), is included exactly when debugging |
| ExceptionListener.FormatException | src/EventListener/ExceptionListener.php:210-233 | trace[0] is the throw site ('unknown' when missing), followed by one entry per frame in order; 'previous' is present iff the exception wraps another |
| ExceptionListener.FormatStackFrame | src/EventListener/ExceptionListener.php:242-250 | a missing file or line becomes 'unknown'; the function is qualified by class and call type only when a class is set |
| ExceptionListener.FormatArguments | src/EventListener/ExceptionListener.php:259-277 | one argument per argument, keys kept in order, and no object left in any value |
| ExceptionListener.FormatValueObjectFree | src/EventListener/ExceptionListener.php:259-277 | no object survives formatting at any depth |
| ExceptionListener.FormatArgumentsIdempotent | src/EventListener/ExceptionListener.php:259-277 | formatting keeps the keys in order and formatting twice changes nothing more |
| ExceptionListener.FormatExceptionKeepsChain | src/EventListener/ExceptionListener.php:228-230 | the formatted chain has one entry per exception of the chain |
| TaskFactoryPass.Process | src/DependencyInjection/Compiler/AddTaskFactoryPass.php:36-63 | no factory or no tagged service leaves the container as it was; otherwise one add call per tagged service, never rising in priority and with each priority's services in discovery order |
| TaskFactoryPass.OrderedIsStableSort | src/DependencyInjection/Compiler/AddTaskFactoryPass.php:42-55 | the order is a permutation of the tagged services, by descending priority, stable within a priority |
| TaskFactoryPass.SortedPriorities | src/DependencyInjection/Compiler/AddTaskFactoryPass.php:54 | the group keys are strictly descending and are exactly the priorities that occur |
| TaskFactoryPass.FilterOfFlatten | src/DependencyInjection/Compiler/AddTaskFactoryPass.php:55 | the merged groups hold, for each priority, exactly that priority's services in their order |
| TaskFactoryPass.FlattenDescending | src/DependencyInjection/Compiler/AddTaskFactoryPass.php:54-55 | merging the groups in descending key order never rises in priority |
| TaskFactoryPass.SameFiltersSameMultiset | src/DependencyInjection/Compiler/AddTaskFactoryPass.php:46-55 | two lists with the same services at every priority are permutations of each other |
| SelfTestController.PrepareTests | src/Controller/SelfTestController.php:174-187 | seven tests, all in the self-test namespace |
| SelfTestController.StripSelfTest | src/Controller/SelfTestController.php:160-162 | a leading 'SelfTest' is removed once, and only when present |
| SelfTestController.ShortName | src/Controller/SelfTestController.php:158 | the short name holds no separator |
| SelfTestController.ShortNameOfQualified | src/Controller/SelfTestController.php:158 | only the last namespace segment is kept |
| SelfTestController.Slug | src/Controller/SelfTestController.php:156-167 | the slug holds no capital letter |
| SelfTestController.SlugOfSelfTest | src/Controller/SelfTestController.php:160-164 | 'SelfTest' followed by camel-case words gives the lower-cased words joined by dashes |
| SelfTestController.RegisteredTestSlugs | src/Controller/SelfTestController.php:178-184 | the seven registered tests have the slugs 'called-via-https' through 'cli-arguments', in order |
| SelfTestController.GetAllTestsAction | src/Controller/SelfTestController.php:88-96 | one row per performed test, in order, named by its slug and carrying state, message and explain |
| SelfTestController.GetAutoConfigAction | src/Controller/SelfTestController.php:137-146 | 'php_cli' and 'php_cli_arguments' are present exactly when the detected value is truthy, and nothing else is |
| InstallProject.BinToHex | src/Controller/InstallProjectController.php:109 | two lower-case hex digits per byte |
| InstallProject.HexRoundTrip | src/Controller/InstallProjectController.php:109 | hex2bin gives back the bytes bin2hex encoded |
| InstallProject.ChosenSecret | src/Controller/InstallProjectController.php:109-112 | the submitted secret when given; otherwise the hex encoding of the random bytes, decoding back to them |
| InstallProject.GeneratedSecretShape | src/Controller/InstallProjectController.php:109 | from 40 random bytes the secret is 80 lower-case hex characters |
| InstallProject.HandleConfiguration | src/Controller/InstallProjectController.php:497-520 | each of the five settings is copied only when set; the secret is untouched |
| InstallProject.HandleConfigurationOfNothing | src/Controller/InstallProjectController.php:497-520 | a configuration setting none of the five keys changes nothing |
| InstallProject.HandleConfigurationIdempotent | src/Controller/InstallProjectController.php:497-520 | applying the same configuration twice equals applying it once |
| InstallProject.ConfigureAction | src/Controller/InstallProjectController.php:102-130 | 406 'Already configured.' with nothing changed once configured; otherwise the secret is stored, the configuration absorbed, one user with ROLE_ALL appended and 201 answered with its token |
| InstallProject.AdministratorHoldsEveryRole | src/Controller/InstallProjectController.php:476-481 | the created user holds every role |
| InstallProject.CheckUninstalled | src/Controller/InstallProjectController.php:458-463 | refuses with 406 'Already installed in <home>' exactly when the installation is complete |
| InstallProject.Gateway | src/Controller/InstallProjectController.php:261-303 | the self-test and auto-config forwards are reachable exactly while the installation is not complete |
| InstallProject.InstallationStateAction | src/Controller/InstallProjectController.php:435-449 | the three status flags, with status OK |
| InstallProject.InstallTaskData | src/Controller/InstallProjectController.php:189-195 | destination dir is home, package is project/name, and version is present iff project/version is truthy |
| InstallProject.CreateProjectAction | src/Controller/InstallProjectController.php:176-213 | 406 before configuration and after completion, nothing queued; otherwise one 'install' task queued and 201 with its id and Location |
| InstallProject.Reference | src/Controller/InstallProjectController.php:376-380 | source.reference when set, else dist.reference, else none |
| InstallProject.VersionEntry | src/Controller/InstallProjectController.php:363-374 | name and version copied; the normalized version replaced by the branch alias exactly for an aliased 'dev-' version |
| InstallProject.ProjectVersionsAction | src/Controller/InstallProjectController.php:351-391 | refused once complete; otherwise one entry per upstream version, in order |
| InstallProject.ReleaseKeepsNormalized | src/Controller/InstallProjectController.php:369-374 | a version that is not 'dev-' keeps its normalized version |
| SelfUpdate.CommitIdPatternAcceptsNewline | src/Command/SelfUpdateCommand.php:446 | the pattern as written accepts 40 hex digits followed by a newline, which is not a commit id |
| SelfUpdate.CommitIdAgreement | src/Command/SelfUpdateCommand.php:446 | the written pattern and the commit-id test differ exactly on 40 hex digits plus a final newline |
| SelfUpdate.RemoteFilename | src/Command/SelfUpdateCommand.php:443-457 | what the commit-id pattern as written accepts is fetched from the root, everything else from download/<version>/ |
| SelfUpdate.RemoteFilenameSeparatesReleases | src/Command/SelfUpdateCommand.php:451-456 | distinct release versions are fetched from distinct URLs |
| SelfUpdate.BaseUrl | src/Command/SelfUpdateCommand.php:411-424 | the cached value when there is one; otherwise the configured URL, prefixed with https (openssl) or http when it lacks '://', and cached |
| SelfUpdate.BaseUrlIsStable | src/Command/SelfUpdateCommand.php:413-415 | once computed, later calls give the same URL whatever the configuration says |
| SelfUpdate.BaseUrlHasScheme | src/Command/SelfUpdateCommand.php:419-421 | a freshly computed base URL always contains '://' |
| SelfUpdate.TargetVersion | src/Command/SelfUpdateCommand.php:144 | the argument when truthy, else the latest version |
| SelfUpdate.Decide | src/Command/SelfUpdateCommand.php:143-158 | what the commit-id pattern as written accepts, other than the latest version, exits 1; the running version exits 0; anything else is fetched |
| SelfUpdate.DecideRefusesNewlineCommitId | src/Command/SelfUpdateCommand.php:146-152 | 40 hex digits followed by a newline, as the version argument, exit 1 like a commit id |
| SelfUpdate.DefaultFetchesLatest | src/Command/SelfUpdateCommand.php:143-158 | without an argument the latest version is fetched unless it is running |
| SelfUpdate.DateStamp | src/Command/SelfUpdateCommand.php:164 | blanks become '_', colons '-', everything else is kept |
| SelfUpdate.DateStampIsPlain | src/Command/SelfUpdateCommand.php:164 | the stamp holds no blank and no colon |
| SelfUpdate.ShortVersionKeepsNewline | src/Command/SelfUpdateCommand.php:165 | the shortening as written turns '<40 hex>\n' into '<7 hex>\n' |
| SelfUpdate.ShortVersion | src/Command/SelfUpdateCommand.php:165 | a commit id is cut to its first seven characters; a version the pattern rejects is kept; '<40 hex>\n' keeps its newline after the seven |
| SelfUpdate.ShortVersionAgreement | src/Command/SelfUpdateCommand.php:165 | apart from '<40 hex>\n', the shortening cuts exactly the commit ids of the intended test to seven characters |
| SelfUpdate.BackupName | src/Command/SelfUpdateCommand.php:161-167 | the backup name is '<stamp>-<short version>' followed by '-old.phar' |
| SelfUpdate.LastByName | src/Command/SelfUpdateCommand.php:337-341 | the last name by byte order is one of the names and no name sorts after it |
| SelfUpdate.Backups | src/Command/SelfUpdateCommand.php:354-362 | exactly the listed names ending in '-old.phar' |
| SelfUpdate.LastBackupVersion | src/Command/SelfUpdateCommand.php:334-345 | none exactly when there is no backup; otherwise the last backup by name, its base name less '-old.phar' |
| SelfUpdate.LastBackupIsWrittenBackup | src/Command/SelfUpdateCommand.php:161-167 | with only the backup an update wrote, the last backup version is that backup's stem |
| SelfUpdate.SetLocalPhar | src/Command/SelfUpdateCommand.php:290-325 | null on success; UnexpectedValue and Phar exceptions are returned, others rethrown; the download is removed on failure exactly when a backup target was given |
| SelfUpdate.Execute | src/Command/SelfUpdateCommand.php:113-199 | unwritable temp dir or phar throws; rollback is handed over, with rollback's own answer as the result; only a fetch decision downloads, from the remote filename into '<tmp>/<name>-temp.phar'; a missing download or a reported phar failure exits 1 |
| PackageController.FirstReal | src/Controller/PackageController.php:145-153 | none exactly when every package is an alias; otherwise a real package of the list |
| PackageController.FindPackage | src/Controller/PackageController.php:140-154 | null iff only aliases were found; otherwise the first entry after the leading aliases |
| PackageController.FindPackageIsFirstReal | src/Controller/PackageController.php:145-153 | the loop and the recursive definition agree |
| PackageController.GetPackageAction | src/Controller/PackageController.php:77-88 | 404 'Package <name> not found.' exactly when no real package carries the name; otherwise the converted package |
| PackageController.PutPackageAction | src/Controller/PackageController.php:104-129 | 406 unless name, locked and constraint are present; 406 on a name mismatch; 404 when not installed; otherwise locks the first real package at 'locked' and answers whatever the forward answers; no lock on any refusal |
| PackageController.PutLocksNamedPackage | src/Controller/PackageController.php:114-128 | a lock is set only on a real package installed under the path's name, which the payload names too, at the submitted 'locked' value; the lock is the same whatever the forward answers |
| PackageController.MarkInstalled | src/Controller/PackageController.php:60 | 'installed' is set to the entry's 'version' and no other key changes |
| PackageController.MarkInstalledIdempotent | src/Controller/PackageController.php:59-61 | marking an entry twice is marking it once |
| PackageController.PackageListAction | src/Controller/PackageController.php:48-64 | every entry of the converted repository, in order, with 'installed' copied from 'version' |
| AuthController.RequestedTtl | src/Controller/AuthController.php:90 | the ttl parameter, defaulting to 3600 |
| AuthController.LifetimeAsWritten | src/Controller/AuthController.php:91-93 | only the integer -1 becomes an unlimited lifetime |
| AuthController.QueryTtlMinusOneExpiresAtOnce | src/Controller/AuthController.php:91-95 | as written, the request string '-1' issues a token whose exp is one second before its iat |
| AuthController.Lifetime | src/Controller/AuthController.php:91-93 | -1 as integer or as request string means unlimited; anything else passes through |
| AuthController.LifetimeAgreement | src/Controller/AuthController.php:91-93 | the two readings differ only on the string '-1' |
| AuthController.CheckAuthAction | src/Controller/AuthController.php:81-109 | 401 'unauthorized' without a user; RuntimeException for a foreign user; otherwise 200 OK with the token, also as the Authentication header, the roles and the name; the token's lifetime is the ttl, with only the integer -1 meaning unlimited |
| AuthController.CheckAuthActionIntended | src/Controller/AuthController.php:90-93 | as intended: -1, whether integer or request string, issues a token without expiry; no ttl issues a 3600-second one; the reply is otherwise the same |
| AuthController.CheckAuthAgreement | src/Controller/AuthController.php:90-93 | the action as written and as intended agree on every ttl but the string '-1', where the written one passes '-1' on as the lifetime |
| AuthController.TtlDefaults | src/Controller/AuthController.php:90-95 | no ttl issues a 3600-second token and the integer -1 an unlimited one, while the request string '-1' is passed on as a lifetime |
| VersionConstraint.CheckVersionConstraintAction | src/Controller/VersionConstraintController.php:73-117 | an undecodable body or a missing constraint answers 400 'invalid payload'; a rejected constraint answers 200 'error' with the parser's message; otherwise 200 'ok' |
| VersionConstraint.ConstraintOutcomes | src/Controller/VersionConstraintController.php:73-117 | 'ok' exactly when a constraint was submitted and parsed; 400 exactly for an unusable payload; an error always carries a message |
| ComposerJson.StripDir | src/Controller/ComposerJsonController.php:123-124 | each message has the directory removed and is never longer |
| ComposerJson.StripDirOfPath | src/Controller/ComposerJsonController.php:123 | a message naming a file in the directory keeps the rest of its path |
| ComposerJson.CheckComposerJson | src/Controller/ComposerJsonController.php:111-130 | the errors are the validation errors followed by the publish errors; both lists are stripped and keep their lengths |
| ComposerJson.PutComposerJsonAction | src/Controller/ComposerJsonController.php:87-102 | ERROR iff some error of either kind, else OK; saved, unchanged, exactly when OK |
| ComposerJson.WarningsDoNotMatter | src/Controller/ComposerJsonController.php:91-99 | warnings decide neither the status nor the save |
| AppKernel.LintOutput | src/Controller/AppKernelController.php:172 | the output searched is stderr, a newline, then stdout |
| AppKernel.AppKernelPath | src/Controller/AppKernelController.php:209-212 | the kernel file lies in the home directory and ends in app/AppKernel.php |
| AppKernel.CheckAppKernel | src/Controller/AppKernelController.php:145-202 | no open tag gives one error at line '1' and no lint; a clean lint gives nothing; a syntax error gives its integer line and message; any other failure gives line '0' with the output |
| AppKernel.SyntaxErrorLine | src/Controller/AppKernelController.php:181 | the captured line number comes back as that integer |
| AppKernel.PutAppKernelAction | src/Controller/AppKernelController.php:122-136 | ERROR iff the check reported an error; the content is written unchanged to <home>/app/AppKernel.php exactly when OK; lint runs only with the open tag |
| AppKernel.SavedIffLintAccepts | src/Controller/AppKernelController.php:122-136 | a kernel is saved exactly when it has the open tag and lint accepts it |
| CliScript.Detect | src/Util/CliScriptDeterminator.php:71-74 | the running phar when truthy, else the script name |
| CliScript.CliExecutable | src/Util/CliScriptDeterminator.php:57-64 | a cached value is answered unchanged; otherwise the detected one is answered and cached |
| CliScript.RepeatedCallsAgree | src/Util/CliScriptDeterminator.php:57-64 | every later call answers what the first call answered, whatever the phar state is by then |
| CliScript.OutsidePharScriptName | src/Util/CliScriptDeterminator.php:47-74 | outside a phar every call answers the script name given at construction |

## Left out

- Process creation, forking and cross-process locking are OS concurrency. The lock's answer, the fork pid, pcntl availability and the spawned process's running state and exit code are inputs. Nothing here claims one task at a time across processes.
- TaskList, Task and the task runner belong to tenside/core and are not part of this model. The list is a sequence of task records. `queue` and `getNext` are inputs. `Task::getOutput` follows the task class's documented contract: the suffix from a byte offset, empty past the end. A negative offset is read as 0.
- JWT signing and verification, md5, `time()` and `random_bytes` are crypto, clock and randomness. They are function parameters or inputs.
- Network and filesystem effects are inputs, or effects in an outcome. This covers the packagist download, the self-update copy, chmod and rename, the writability checks, the directory listing, the temporary validation file, the reading of composer.json and AppKernel.php by their GET actions, and saving them.
- Composer, Nelmio and Symfony internals are oracles: PackageConverter, ConfigValidator, VersionParser, `php -l`, `DataTypes::isPrimitive`, JsonArray decoding, and the user provider.
- PermissionVoter's ConfigCache and `require_once` are not modelled. The route-role map is computed from the routes directly. `options['debug']` is not modelled either.
- The JSON encoding flags, ISO 8601 dates, log messages and console output are presentation.
- SelfUpdate rollback and clean-backups are filesystem-only. The model records that rollback was handed over and nothing more.
- `onAuthenticationFailure` only renders a message and is not modelled.
- SearchPackageController, the DependencyInjection factories, VoterCacheWarmer and the bundle class are framework wiring and are not modelled.
- Comparisons use string equality. PHP's loose `==` between role names is read as string equality after `strtoupper`. Numeric-looking role names, which loose comparison would equate, are not modelled.
- ComposerJson: the directory stripped from messages is taken to be the data directory, i.e. `dirname` of `<data dir>/composer.json.tmp`.
- AppKernel: `PHP_EOL` is taken to be "\n".
- `DIRECTORY_SEPARATOR` is taken to be "/". AppKernel.AppKernelPath and RunTaskCommand.LogFile build their paths with it; on Windows it is a backslash.
- TaskFactoryPass: a tag's 'priority' attribute is modelled as an integer, 0 when unset. PHP uses it unconverted as an array key, so a float is truncated to an integer key and a non-numeric string stays a string key under `krsort`. Neither is modelled.
- AppKernel: the syntax-error pattern is an oracle that answers the captured message and line.
- The invalid-JSON exception from decoding a request body in `addTaskAction`, `configureAction`, `createProjectAction` and `putPackageAction` is not modelled. That exception is raised by JsonArray, which is not part of this model. The decoded payload is an input.
- TaskRunner.GetTasksAction: the entry-by-entry listing is stated only for lists with distinct ids. With a repeated id, PHP's keyed array keeps one entry per id.
- TaskRunner.Remove: states membership of the remaining tasks, not their order.
- TaskFactoryPass.Filter: states only the priority of what is kept. Its contents are pinned down by FilterOfFlatten and SameFiltersSameMultiset.
- PackageController.PutPackageAction: the forward at PackageController.php:128 passes no route arguments, so the sub-request lacks `vendor` and `package`. What Symfony's argument resolution makes of that is framework behaviour, and the forwarded answer is an input. Nothing here states that the forward shows the locked package.
- JwtAuthenticator.AuthenticateToken: the user provider is taken to answer "no user" for an unknown name. A provider that throws UsernameNotFoundException instead, as Symfony's UserProviderInterface documents, is not modelled.
- PermissionVoter.RequiredRole: the route name is read from the request's `_route` attribute. `Request::get('_route')` would fall back to query and body parameters of that name when the attribute is absent; that fallback is not modelled.
- PermissionVoter.RouteRoles: its ensures states only that roles are truthy. The entry-by-entry content is in RouteRolesSound and RouteRolesComplete.

## Findings

| source | as written | input that shows it | evidently intended | confidence | as-written member | corrected member |
|---|---|---|---|---|---|---|
| src/Command/SelfUpdateCommand.php:446 | `{^[0-9a-f]{40}$}` lacks the D modifier, so `$` also matches before a final newline (the same pattern is used at lines 146 and 165) | the version argument: 40 hex digits followed by "\n" | exactly 40 lower-case hex digits count as a commit id | low; not executed | SelfUpdate.DecideRefusesNewlineCommitId | SelfUpdate.CommitIdAgreement |
| src/Controller/AuthController.php:91-93 | `-1 === $lifetime` compares strictly with the integer, while a ttl from the query or form is the string "-1" | `GET /auth?ttl=-1`: the lifetime stays "-1" and `exp = iat - 1` | ttl -1 means a token without expiry, as the test with the integer -1 shows | medium; not executed | AuthController.QueryTtlMinusOneExpiresAtOnce | AuthController.CheckAuthActionIntended |
