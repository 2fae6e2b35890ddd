# A Dafny model of the tasoft/php-service-manager service registry

The service manager maps service names to *containers*. A container creates its
service instance lazily, on the first `get`, and keeps it. The manager:

- resolves constructor arguments and configurations. `%name%` placeholders become
  parameter values and `$name` strings become other services;
- builds instances in `makeServiceInstance`;
- answers class queries (`getServiceClass`) from a per-name cache, loading a service
  only when it has to;
- selects services by name or class (`yieldServices`, `getServices`);
- keeps a persisted list of services whose install hook has run
  (`registeredServices`). A dirty flag says whether the list must be written back.

The model has five modules:

| file | module | what it holds |
|---|---|---|
| `base.dfy` | `Base` | `Option` and PHP's decimal rendering of integers |
| `placeholders.dfy` | `Placeholders` | the three regular expressions of the argument handlers, as scanners over `seq<char>`, with round-trip and completeness lemmas |
| `lifecycle.dfy` | `Lifecycle` | the registered list and its dirty flag, as pure transitions (`AfterGet`, `AfterUnregister`) with the install/uninstall cycle proved |
| `ordered_maps.dfy` | `OrderedMaps` | PHP's insertion-ordered arrays (`$a[$k] = $v`), used for the result of `getServices` |
| `registry.dfy` | `Registry` | PHP values, the configuration keys, the parameter handler and the template merge; the `Container` class (static, callback, configured and user container classes); the `ServiceManager` class |

**How the PHP runtime is represented:**

- **Classes.** PHP classes are a `ClassTable`. Each entry records the class's ancestors
  (for `is_subclass_of`), its constructor-argument template, whether it is a static
  constructor service, a registry service or configurable, its number of required
  constructor arguments, and, for a user container class, what its `loadInstance` does.
- **Objects.** Objects are references: `ServiceObject`, `Container`, and `Manager` for
  the manager itself.
- **Errors and diagnostics.** Exceptions are `Err` results. Warnings, notices and the
  calls of `installService`/`uninstallService` are appended to the manager's `events`
  log.
- **The file system.** The service scripts are a map from path to what requiring the
  script returns.
- **Recursion.** The manager and the containers call each other: `get` calls
  `getInstance`, which calls `makeServiceInstance`, then `mapArray`, then `get` again.
  These methods carry a `fuel` budget. The budget is spent once per nested `$name`
  resolution and once per intermediate container. When it runs out, the result is
  `NestingLimit`, which stands for the stack overflow a reference cycle causes in PHP.

Where the code and its documentation disagree, the model follows the code. Two cases:

- An unset whole-value placeholder yields null without the warning an embedded one
  raises.
- The file strategy hands the script the raw arguments and gives the object the raw,
  unresolved configuration.

## Model

| member | source | states |
|---|---|---|
| `Base.NatToString` | src/ServiceManager.php:142-149 | the decimal text of a number that PHP's string conversion gives: at least one character, digits only, no leading zero |
| `Base.IntToString` | src/ServiceManager.php:142-149 | `(string)$i`: the text starts with '-' exactly when the integer is negative |
| `Base.ParseNatToString` | src/ServiceManager.php:142-149 | the decimal text reads back as the number it renders |
| `Base.IntToStringInjective` | src/ServiceManager.php:120-131 | distinct integer configuration keys become distinct service names |
| `Placeholders.ClosingPercent` | src/ServiceManager.php:142 | the lazy `(.*?)%` stops at the first '%' after the opening one, and fails when a newline comes first |
| `Placeholders.RenderScan` | src/ServiceManager.php:142-149 | scanning a string for `%…%` matches loses nothing: writing the segments back gives the string |
| `Placeholders.Scan` | src/ServiceManager.php:142 | every placeholder the scan finds has a name with no '%' and no newline, which is all the lazy `(.*?)%` can match |
| `Placeholders.NoPercentNoPlaceholder` | src/ServiceManager.php:142 | a string without '%' holds no placeholder |
| `Placeholders.WholePlaceholder` | src/ServiceManager.php:138 | a recognised whole-value placeholder is `%name%`, optionally followed by one final newline, with a name that contains no newline |
| `Placeholders.WholePlaceholderComplete` | src/ServiceManager.php:138-139 | every string of that shape is recognised, with exactly that name |
| `Placeholders.WholePlaceholderSpansInnerPercent` | src/ServiceManager.php:138-149 | the anchors force the lazy group to the end: "%a%b%" is one parameter "a%b", where the embedded scan would find "a" |
| `Placeholders.ServiceReference` | src/ServiceManager.php:155-156 | a recognised service reference is `$` plus an identifier (case-insensitive letters, digits after the first, underscores), optionally followed by a final newline |
| `Placeholders.ServiceReferenceComplete` | src/ServiceManager.php:155-156 | every dollar-prefixed identifier is recognised as a reference to that name |
| `Lifecycle.RemoveFirst` | src/ServiceManager.php:627-628 | a list without the name is unchanged; otherwise the list with its first occurrence (`IndexOf`) cut out, the rest in order; every other name keeps its membership |
| `Lifecycle.IndexOf` | src/ServiceManager.php:627 | `array_search`'s hit: a position holding the name with no earlier occurrence |
| `Lifecycle.RemoveFirstDistinct` | src/ServiceManager.php:627-628 | on a duplicate-free list the name is gone afterwards and the list stays duplicate-free |
| `Lifecycle.AfterGet` | src/ServiceManager.php:232-234 | after a get the name is listed, the old list is a prefix, no other name changes, and the flag is set exactly when the name is new or the flag was already set |
| `Lifecycle.AfterUnregister` | src/ServiceManager.php:623-630 | only a listed name whose service was fetched truthy is removed, which sets the flag; anything else leaves the ledger unchanged |
| `Lifecycle.GetInstallsOnce` | src/ServiceManager.php:232-236 | a second get of the same name changes nothing and calls no install hook |
| `Lifecycle.DistinctPreserved` | src/ServiceManager.php:627-628 | get and unregister keep the list free of duplicates |
| `Lifecycle.InstallUninstallCycle` | src/ServiceManager.php:231-630 | get installs a registry service; unregister uninstalls it and marks the list dirty; a second unregister is a no-op; a later get installs again |
| `Lifecycle.FlushOnlyAfterChange` | src/ServiceManager.php:167-174 | an untouched ledger is not written back; after a get it is written back exactly when the name was new |
| `OrderedMaps.Put` | src/ServiceManager.php:613 | assigning to an existing key keeps the keys and their order; a new key is appended; every other entry stays |
| `OrderedMaps.Get` | src/ServiceManager.php:613 | the value read is stored under its key |
| `OrderedMaps.PutKeepsUnique` | src/ServiceManager.php:613 | assignment keeps array keys unique |
| `OrderedMaps.PutThenGet` | src/ServiceManager.php:613 | the value assigned is read back |
| `OrderedMaps.PutTwice` | src/ServiceManager.php:613 | assigning a key twice keeps only the later value |
| `OrderedMaps.PutOtherGet` | src/ServiceManager.php:613 | assignment to one key does not change what another key reads |
| `OrderedMaps.PutKeys` | src/ServiceManager.php:613 | the keys after an assignment are the old keys plus the assigned one |
| `OrderedMaps.AssignUnique` | src/ServiceManager.php:607-614 | the array built by the assignment loop has unique keys |
| `OrderedMaps.AssignKeys` | src/ServiceManager.php:607-614 | its keys are exactly the keys assigned |
| `OrderedMaps.AssignLast` | src/ServiceManager.php:607-614 | each key holds the value of its last assignment |
| `Registry.Find` | src/ServiceManager.php:229 | `$a[$k] ?? NULL`: a non-null result is an entry under k; no entry under k gives null |
| `Registry.StringCast` | src/ServiceManager.php:142-149 | a callback result converts to a string unless it is an object; an array converts to "Array" with a notice |
| `Registry.StringParam` | src/Container/ConfiguredServiceContainer.php:213-222 | a value is accepted as a `string` exactly when it is a bool, an int or a string, and a string passes unchanged |
| `Registry.FirstTruthy` | src/Container/ConfiguredServiceContainer.php:96-115 | the index of the first creation key with a truthy setting; all earlier ones are falsy |
| `Registry.Strategy` | src/Container/ConfiguredServiceContainer.php:96-115 | loadInstance uses class, then container, then file: the first with a truthy setting, and none exactly when all three are falsy |
| `Registry.StrategyImpliesInstantiable` | src/Container/ConfiguredServiceContainer.php:62-115 | a configuration that gives loadInstance something to do passes the constructor's check |
| `Registry.InstantiableWithoutStrategy` | src/Container/ConfiguredServiceContainer.php:62-103 | the converse fails: `['class' => '']` is accepted and then loads nothing |
| `Registry.GetParam` | src/ServiceManager.php:367-374 | getParameter reports "contained" exactly when a non-null value is stored, and returns the stored value or null |
| `Registry.SetThenGetParam` | src/ServiceManager.php:355-374 | a parameter set under a truthy name is read back (null reads back as not contained); other names are untouched |
| `Registry.FalsyParamNameIgnored` | src/ServiceManager.php:356 | the falsy names "" and "0" store nothing |
| `Registry.SetParam` | src/ServiceManager.php:355-362 | the names "" and "0" leave the parameters as they are. Under any other name the value set is read back, and null reads back as not contained. Every other name keeps its entry or its absence |
| `Registry.Splice` | src/ServiceManager.php:143-148 | an unset embedded placeholder is kept verbatim and raises one "not set" warning |
| `Registry.Substitute` | src/ServiceManager.php:142-149 | the embedded replacement fails exactly when some placeholder names a set parameter holding an object, and then with NotConvertibleToString |
| `Registry.SubstituteAppend` | src/ServiceManager.php:142-149 | the replacement works match by match: substituting a string in two parts and joining the results is substituting it whole |
| `Registry.SubstituteSetPlaceholder` | src/ServiceManager.php:143-145 | a set placeholder anywhere in a string contributes its value's string conversion, between the substitutions of the text before and after it |
| `Registry.SubstituteUnsetKeepsText` | src/ServiceManager.php:142-149 | when no placeholder is set, the string comes back unchanged, with one warning per placeholder |
| `Registry.ApplyParametersUnset` | src/ServiceManager.php:135-152 | a string that is no whole-value placeholder and whose placeholders are all unset passes the handler unchanged, with one "not set" warning per placeholder and no other event |
| `Registry.ApplyParameters` | src/ServiceManager.php:135-152 | values other than strings pass the PARAMETERS handler unchanged and silently |
| `Registry.ApplyParametersPlainString` | src/ServiceManager.php:135-152 | a string without '%' passes the handler unchanged and silently |
| `Registry.WholePlaceholderGivesValue` | src/ServiceManager.php:138-140 | a whole-value placeholder becomes the parameter's own value, whatever its type (null when unset), without a warning |
| `Registry.PlaceholderInsideString` | src/ServiceManager.php:142-149 | with a = 5, "%a%-x" becomes "5-x" |
| `Registry.Merged` | src/ServiceManager.php:465-473 | one argument per template slot, renumbered from 0; a non-null template value wins; a null slot takes the caller's argument under the slot's key, or null |
| `Registry.MergeTemplate` | src/ServiceManager.php:466-472 | the template loop builds exactly `Merged` |
| `Registry.MergedTemplateExample` | src/ServiceManager.php:465-473 | `[17, '$testService', 'bool' => NULL]` with `['bool' => true]` gives `[17, '$testService', true]` |
| `Registry.MatchClass` | src/ServiceManager.php:575-585 | true exactly when the class is requested by name, or, with subclass search, when it descends from a requested class |
| `Registry.ComplementClearsOneBit` | src/ServiceManager.php:612-613 | `~OPTION_RETURN_PROMISES` keeps subclass search and forced detection and clears promises |
| `Registry.SelfClassYields` | src/ServiceManager.php:564-568 | at most one self-yield per requested class, each under the first self-reference name (or "serviceManager") |
| `Registry.FirstSelfName` | src/ServiceManager.php:569 | the first requested name that is a self-reference name; none exactly when no requested name is one |
| `Registry.SelfYieldsAsWritten` | src/ServiceManager.php:564-572 | as written: when a self-reference name is requested by name, exactly one self-yield happens |
| `Registry.SelfYields` | src/ServiceManager.php:564-572 | as intended: with no class requested, the manager is yielded once exactly when some requested name is a self-reference name, under that name, with no notice |
| `Registry.SelfYieldsAgreeWhenFirstIsSelf` | src/ServiceManager.php:569-571 | the two agree whenever classes are requested, or the first requested name is a self name, or none is |
| `Registry.SelfYieldsDiscrepancy` | src/ServiceManager.php:569-571 | for `['logger', 'serviceManager']` the code yields under a null key with a notice; the intended key is "serviceManager" |
| `Registry.ClassOf` | src/ServiceManager.php:529 | `get_class` has an answer exactly for objects |
| `Registry.AfterLoad` | src/Container/AbstractContainer.php:62-63 | after loadInstance, an instance that is already truthy stays; otherwise the returned value becomes the instance |
| `Registry.Instantiate` | src/ServiceManager.php:479-490 | a static-constructor class gets the arguments and the manager, any other class the argument values. The result has the requested class and is fresh. A container class gives a fresh, unloaded container. Too few positional arguments is the only failure |
| `Registry.Container.Static` | src/Container/StaticContainer.php:49-51 | the static container holds exactly the object it was given |
| `Registry.Container.Callback` | src/Container/CallbackContainer.php:47-50 | a callback container starts unloaded with its callback |
| `Registry.Container.Configured` | src/Container/ConfiguredServiceContainer.php:55-59 | a configured container starts unloaded, with its name and configuration |
| `Registry.Container.NewConfigured` | src/Container/ConfiguredServiceContainer.php:55-74 | construction succeeds exactly when class, file or container is set (non-null); otherwise BadConfiguration carrying the configuration and the service name |
| `Registry.Container.Instance` | src/Container/AbstractContainer.php:58-66 | what getInstance hands out: a static container its held object, any other container its stored instance |
| `Registry.Container.IsLoaded` | src/Container/AbstractContainer.php:70-73 | isInstanceLoaded: a non-static container is loaded exactly when its instance is truthy; a static container holding an object always is |
| `Registry.Container.GetUserInstance` | src/Container/AbstractContainer.php:58-65 | a loaded container returns its instance and changes nothing; otherwise the outcome follows the class's loadInstance, including a returned value becoming the instance |
| `Registry.Container.GetInstance` | src/Container/AbstractContainer.php:58-73 | the result is always the stored instance. A loaded or static container changes nothing. A callback container stores its factory's result. A configured container ends truthy exactly when it has a strategy; without one the result is false. The class strategy yields an object of the configured class. The manager's configuration and class cache stay |
| `Registry.Container.LoadInstance` | src/Container/ConfiguredServiceContainer.php:96-115 | the configured container returns whether a strategy applied; class and file strategies leave an object; the callback container stores the callback's result |
| `Registry.Container.LoadFromClass` | src/Container/ConfiguredServiceContainer.php:173-178 | the instance is made by makeServiceInstance from the class key, the arguments and the configuration: it has that class and is a container exactly for container classes. An object is built by its class's convention. Falsy prepared arguments pass as they are (static constructor) or give no arguments; truthy ones are the arguments mapped key by key (`MappedFrom`). It is configured exactly when the configuration is truthy and the class configurable, with the configuration mapped key by key |
| `Registry.Container.LoadIntermediate` | src/Container/ConfiguredServiceContainer.php:131-147 | a fresh container of the named class, whose kind is that class's container description in the class table; every failure becomes BadContainer for this service |
| `Registry.Container.LoadFromContainer` | src/Container/ConfiguredServiceContainer.php:156-166 | the intermediate is kept and the instance is the intermediate's instance |
| `Registry.Container.LoadFromFile` | src/Container/ConfiguredServiceContainer.php:186-208 | a missing file gives FileNotFound with the service name and path. A script object becomes the instance and receives the raw configuration setting exactly when its class is configurable and that setting is truthy, and null otherwise. A non-object script result gives InvalidService. The intermediate is untouched |
| `Registry.Container.GetServiceClass` | src/Container/ConfiguredServiceContainer.php:213-233 | loaded: the instance's class, or "" with a warning. Otherwise the class key, then the type key, with nothing loaded or changed. Then the intermediate container, kept or built from the container key: a service-aware one gives its report (a kept one with nothing loaded or changed); without one the instance is loaded and its class, or "", is the answer. A user class reports its fixed answer |
| `Registry.Wrap` | src/ServiceManager.php:276-284 | a callable goes into a callback container, an array into a configured container, a container as it is, another object into a static container. The wrapping succeeds exactly for those inputs; a rejected array gives BadConfiguration and anything else NotAnObject |
| `Registry.Chosen` | src/ServiceManager.php:591-592 | the services selected are exactly the registered names requested or matched by their cached class, no more than there are |
| `Registry.ChosenFrame` | src/ServiceManager.php:592 | the selection depends on the class cache only through the answers for the names themselves |
| `Registry.ChosenStep` | src/ServiceManager.php:591-595 | one loop step selects the next name or not, even when that step filled the name's cache entry |
| `Registry.ChosenSnoc` | src/ServiceManager.php:591-595 | a name added at the end is selected after the earlier ones, when it is selected |
| `Registry.ListedSnoc` | src/ServiceManager.php:593 | yielding one more selected service extends the yields by that service |
| `Registry.ListedServiceIsKey` | src/ServiceManager.php:612-613 | a yielded service is a key of getServices's array |
| `Registry.ListedAfterSelf` | src/ServiceManager.php:563-596 | the manager's own yields come before the services' |
| `Registry.ServiceManager.constructor` | src/ServiceManager.php:59-73 | an empty registry with the self-reference names "serviceManager" and "SERVICES", replacing off, an empty and clean ledger |
| `Registry.ServiceManager.AvailableServices` | src/ServiceManager.php:195-197 | exactly the registered names, each once, in registration order |
| `Registry.ServiceManager.ServiceExists` | src/ServiceManager.php:315-317 | true exactly for a registered name or a self-reference name |
| `Registry.ServiceManager.IsServiceLoaded` | src/ServiceManager.php:322-332 | a self-reference name is always loaded; a registered service is loaded exactly when its container is; a name reported loaded exists |
| `Registry.ServiceManager.SetParameter` | src/ServiceManager.php:355-362 | the parameters become `SetParam` of the old ones; nothing else changes |
| `Registry.ServiceManager.FlushTarget` | src/ServiceManager.php:167-174 | the list is written back exactly when it changed and the `sm.initial.file` parameter is truthy |
| `Registry.ServiceManager.Set` | src/ServiceManager.php:264-287 | a taken name (registered or self-reference) fails with AlreadyRegistered unless replacing, which adds a notice. Otherwise the input is stored wrapped as `Wrap` does. Only that name's entry changes, and a new name goes last in the order. Failures change no registration |
| `Registry.ServiceManager.Store` | src/ServiceManager.php:286 | exactly the name's entry becomes the container, a new name goes last in the order, the footprint gains the container and nothing else changes |
| `Registry.ServiceManager.Get` | src/ServiceManager.php:228-247 | a registered name returns its container's instance; the ledger moves by `AfterGet` and the install hook fires exactly as `InstallFires` says. A self-reference name returns the manager; anything else gives UnknownService. A loaded service is returned with no container changed |
| `Registry.ServiceManager.GetTwice` | src/ServiceManager.php:228-247 | once a service has been delivered, a second get returns the identical instance |
| `Registry.ServiceManager.Resolve` | src/ServiceManager.php:135-161 | PARAMETERS then SERVICES. A PARAMETERS error is returned with the manager untouched. A PARAMETERS result that is no `$name` of an existing service is the result, its warnings are logged and nothing else changes. A `$name` of a registered service gives that service's instance, as get does; of a self-reference name, the manager. A reference with no fuel left fails with NestingLimit |
| `Registry.ServiceManager.ResolveReference` | src/ServiceManager.php:155-159 | a `$name` naming an existing service resolves through get: a registered service gives its container's instance, a self-reference name the manager; with no fuel left it fails with NestingLimit |
| `Registry.ServiceManager.MapArray` | src/ServiceManager.php:414-419 | the result is the array mapped key by key (`MappedFrom`): keys and their order are kept, nested arrays stay arrays of the same size, and non-strings and strings with no '%' that are no reference stay as they are |
| `Registry.ServiceManager.PrepareArguments` | src/ServiceManager.php:465-477 | falsy arguments pass unmapped and nothing changes; truthy ones (merged with the class's template) are mapped key by key (`MappedFrom`) |
| `Registry.ServiceManager.MakeServiceInstance` | src/ServiceManager.php:459-498 | an unknown class fails. A result is fresh and of the requested class, and a container exactly for container classes. A static-constructor object gets the raw arguments when the prepared ones are falsy and otherwise the prepared ones mapped key by key; another object gets no arguments, or one value per prepared argument in the same shape and at least the required number. It is configured exactly when the configuration is truthy and the class configurable, with the configuration mapped key by key |
| `Registry.ServiceManager.MakeKnown` | src/ServiceManager.php:462-497 | for a known class: a fresh result of that class, a container exactly for container classes, built with the arguments and configured with the configuration as `MakeServiceInstance` states |
| `Registry.ServiceManager.Build` | src/ServiceManager.php:479-495 | with prepared arguments: the static-constructor class gets them with the manager, another the argument values (at least the required number); a container is fresh, unloaded and added to the footprint; an object is configured exactly when asked, with the configuration mapped key by key |
| `Registry.ServiceManager.HandConfiguration` | src/ServiceManager.php:492-495 | an object receives a configuration exactly when asked, and it is the configuration mapped key by key (`MappedFrom`); a container stays unloaded and outside the footprint; the class cache is untouched |
| `Registry.ServiceManager.ClassOfService` | src/ServiceManager.php:527-540 | only the name's cache entry may be filled. A loaded service caches its instance's class. An unforced query about an unloaded service that is not service-aware changes nothing. A class the container reports without loading (class or type key, a user class's answer) is cached with nothing loaded. A truthy report of the intermediate container is cached as it is. Any other forced query caches the class of the instance it loads, or false. An unforced query the intermediate container cannot answer still loads a configured container's instance and caches its class when that is a truthy name; otherwise it caches nothing; a class or type key that is no string fails with the cache as it was |
| `Registry.ServiceManager.ClassOfLoaded` | src/ServiceManager.php:528-531 | a loaded service caches its instance's class, or false with a warning |
| `Registry.ServiceManager.ClassOfUnloaded` | src/ServiceManager.php:533-540 | only the name's cache entry may be filled, and a forced query always fills it. Unforced and not service-aware: nothing changes. A class or type key (or a user class's answer) is cached without loading anything; the query fails exactly when that key is no string. A truthy report of the intermediate container is cached as it is. Any other forced query caches `get_class` of the instance it loads, or false. An unforced query the intermediate container cannot answer still loads a configured container's instance and caches its class when that is a truthy name; otherwise it caches nothing |
| `Registry.ServiceManager.ClassOfInstance` | src/ServiceManager.php:538-539 | a forced query loads the instance and caches its class, or false when it is no object; a failure leaves the cache as it was |
| `Registry.ServiceManager.ClassOfRegistered` | src/ServiceManager.php:527-549 | for a registered name with no cache entry: the outcomes of `Registry.ServiceManager.ClassOfService`, and the answer is the new cache entry, or null with an undefined-index notice when none was made |
| `Registry.ServiceManager.GetServiceClass` | src/ServiceManager.php:523-550 | the answer is the cached entry. A cached name changes nothing: a negative answer stays. An unknown name caches false. A self-reference name caches the manager's class. A loaded service caches its instance's class. An unforced query about an unloaded service that is not service-aware answers null with an undefined-index notice and loads nothing. A class reported without loading (class or type key, a user class's answer) is answered and cached with nothing loaded; a truthy report of the intermediate container is cached as it is. Any other forced query loads the service and caches its instance's class, or false. An unforced query the intermediate container cannot answer still loads a configured container's instance and caches its class when that is a truthy name; otherwise it caches nothing, and the answer is null with an undefined-index notice. A class or type key that is no string fails with the cache and the events as they were |
| `Registry.ServiceManager.GetServiceClassAsWritten` | src/ServiceManager.php:523-529 | as written, an uncached self-reference name without a container fails on a null container, after a notice |
| `Registry.ServiceManager.Offer` | src/ServiceManager.php:592-593 | a service is yielded exactly when it is selected (by name, or by its class as cached afterwards), as a promise of its container or resolved |
| `Registry.ServiceManager.YieldServices` | src/ServiceManager.php:563-596 | the yields are the manager's (`SelfYields`) followed by the selected services in registration order; the registry's configuration is unchanged |
| `Registry.ServiceManager.YieldRegistered` | src/ServiceManager.php:591-595 | the loop yields exactly the selected services, in registration order |
| `Registry.ServiceManager.RequestedAreKeys` | src/ServiceManager.php:591-614 | every registered service requested by name is a key of the result |
| `Registry.ServiceManager.GetServices` | src/ServiceManager.php:606-616 | the result is the yields assigned by name, with unique keys. Option bit 0 turns on subclass search; bit 2 chooses promises over instances. Every requested registered service is present |
| `Registry.ServiceManager.Fetch` | src/ServiceManager.php:216-222 | `__get` never lets a service exception through. Unregistered names give the manager or null with nothing changed. A truthy result is the service's instance |
| `Registry.ServiceManager.UnregisterService` | src/ServiceManager.php:621-632 | an unlisted name changes nothing. A listed one moves the ledger by `AfterUnregister` after the fetch, and the uninstall hook fires exactly as `UninstallFires` says. Errors are never service exceptions. The registry's configuration is unchanged |
| `Registry.ServiceManager.Unlist` | src/ServiceManager.php:623-630 | a truthy listed service leaves the list by `AfterUnregister` and fires the uninstall hook exactly as `UninstallFires` says; the configuration, cache and footprint are unchanged |
| `Registry.ServiceManager.Boot` | src/ServiceManager.php:112-165 | the persisted file becomes the `sm.initial.file` parameter and the persisted list a prefix of the ledger. Each configuration entry is a configured container under its key, in order. Every init service is registered. A non-array or uninstantiable entry fails |
| `Registry.ServiceManager.Start` | src/ServiceManager.php:112-118 | a fresh, empty registry whose only parameter is `sm.initial.file` and whose registered list is the persisted one, or empty |
| `Registry.ServiceManager.Configure` | src/ServiceManager.php:120-132 | the loop registers one configured container per entry, in configuration order; any bad entry fails |
| `Registry.ServiceManager.AddConfigured` | src/ServiceManager.php:121-131 | a non-array entry gives BadConfiguration. An accepted one adds exactly that name, last, holding a configured container |
| `Registry.ServiceManager.Initialize` | src/ServiceManager.php:163-164 | every init service has been fetched, and so is in the registered list |
| `Registry.AssignYields` | src/ServiceManager.php:607-614 | the assignment loop builds `Assign` of the yields' pairs, with unique keys |
| `Registry.ConfiguredAllSnoc` | src/ServiceManager.php:120-132 | one more configured entry under a new name extends the configured prefix |
| `Registry.InitNames` | src/ServiceManager.php:128-129 | every init name is a configuration key |
| `Registry.SelfServiceClassDiscrepancy` | src/ServiceManager.php:523-550 | on a fresh manager, `getServiceClass("serviceManager")` fails as written and gives the manager's class as intended |

## Left out

- The global singleton (`generalServiceManager`, `rejectGeneralServiceManager`, the global variable name) is not modelled. It is process-wide state outside the registry.
- The magic accessors `__set`, `__isset` and `__unset`, and `ServiceForwarderTrait`, are not modelled. They are thin wrappers or outside the core; `__get` is modelled as `Fetch`.
- Custom argument handlers (`addCustomArgumentHandler`, `getCustomArgumentHandler`, `orderCustomArgumentHandlers`) and `mapValue` are not modelled. The handler pipeline is fixed to PARAMETERS then SERVICES, the two handlers the constructor installs.
- The `DynamicConstructorServiceInterface` branch of `makeServiceInstance` is not modelled. It depends on an external signature service and always constructs without arguments.
- `ServicePromise` is not modelled: a promise is a tag naming its container. Resolving at once (`Resolved`) is known only to give some value; the link to the container's later state is not modelled.
- The collection mapper library (`CollectionMapping`, `makeArray`) is not modelled. Its effect is taken to be: non-arrays are wrapped in a one-element array, and the configuration is passed through `MakeArray` before mapping.
- PHP's loose comparison in `in_array`, case-insensitive class names, numeric-string array keys, string offsets and the PHP 8 `get_class` TypeError are not modelled. Strings compare exactly, keys are normalised by the caller, and `get_class` on a non-object gives a warning and false (PHP 7.2+).
- PHP floats are not modelled. `Value` has no float case; a float argument or parameter is outside the model.
- Objects with a `__toString` method are not modelled. `StringCast` and `StringParam` reject every object, where PHP would convert such an object to its string.
- Callable strings and arrays are not modelled. A callable is a `Factory` datatype, and `Traversable` configurations are arrays.
- The install and uninstall hooks' own effects are not modelled. Their calls are logged as events.
- Container classes' own constructor arguments are not modelled. A user container class is described by a `ContainerClass`, and the built-in container classes are not instantiable by name.
- `setSelfReferenceNames` and `setReplaceExistingServices` are not modelled as operations. They are plain field writes.
- The persisted file's contents are abstracted. It is an optional list of names: file reading and writing, serialisation, and a non-array return value are not modelled.
- `Registry.Container.LoadFromFile`: a script that returns an already existing object does not receive the raw configuration. Only an object the script creates does.
- `Registry.Container.GetInstance`: does not state that a failed load leaves the instance unset. Its frame lets a re-entrant load touch the container. The state after a failure is only known through `IsLoaded`.
- `Registry.Container.GetServiceClass`: does not state that building the intermediate container leaves this container's instance unset. The intermediate's constructor arguments are resolved through `get`, which may load this very service re-entrantly, and the model keeps that possibility.
- `Registry.ServiceManager.MapArray`: states each mapped value only as far as `KeptShape` carries it. The value of a replaced placeholder or a resolved reference is stated by `Resolve` for one value, not lifted to whole arrays.
- `Registry.ServiceManager.Boot`: the class cache and registry state after the init loop are stated only as far as `Evolved` carries them.
- Fuel: a chain of `$name` references or intermediate containers deeper than the fuel given fails with `NestingLimit`. Deeper legitimate nesting is therefore not modelled.

## Findings

| source | as written | input that shows it | evidently intended | confidence | as-written member | corrected member |
|---|---|---|---|---|---|---|
| src/ServiceManager.php:523-529 | `serviceExists` accepts a self-reference name; then `$this->serviceData[$name]` is null and `isInstanceLoaded()` is called on null | `getServiceClass("serviceManager")` on a manager with no service of that name | the manager's own class, as `get` returns the manager for that name | high, not executed | `Registry.ServiceManager.GetServiceClassAsWritten`, `Registry.SelfServiceClassDiscrepancy` | `Registry.ServiceManager.GetServiceClass` |
| src/ServiceManager.php:569-571 | `array_intersect` keeps the keys of `$serviceNames`, so `$inter[0]` exists only when the first requested name is a self-reference name; otherwise the manager is yielded under a null key with an undefined-index notice, and `getServices` stores it under "" | `getServices(["logger", "serviceManager"])` | the manager yielded under "serviceManager", the first requested self-reference name | high, not executed | `Registry.SelfYieldsAsWritten`, `Registry.SelfYieldsDiscrepancy` | `Registry.SelfYields`, used by `Registry.ServiceManager.YieldServices` |
