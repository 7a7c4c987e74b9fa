# Verified models of the AI gateway

This project models, in Dafny, the parts of the gateway whose correctness is
about whole runs or about a printer and a parser agreeing, and proves what
those parts promise.

* **The paid-request ledger** (`Ledger`, `LedgerRows`, `LedgerKeys`, `LedgerRuns`,
  `Overdraft`, `ExactlyOnce`, `ChargeAmounts`, `Holds`, `Refunds`, `Lifecycle`,
  `LedgerRepository`, `SettleAmount`, `Uuids`). Reserve, release, settle and
  refund are four atomic steps over one table of ledger rows. A run is any sequence of such steps for any requests,
  projects and tenants, mixed with rows of other writers. The repository class
  updates the table in place, and each of its methods is proved to be its step.
* **Catalogue queries and admission control** (`Catalog`, `ProviderKeys`,
  `RateWindows`, `PriceSelection`, `Cidr`).
* **The failed-login limiter and its wire format** (`LoginLimiter`,
  `LoginPolicies`, `LoginAttempts`, `LoginStores`, `Resp`, `Utf8`). Two stores and an idealised one that
  never forgets are compared step by step over every run; the mutable stores keep
  the operations they served as ghost state and answer like the idealised one.
* **OIDC state store and authorize URL** (`OidcStates`, `QueryEncoding`).
* **The YAML subset of the chart validator** (`YamlSubset`, `YamlParser`,
  `YamlRoundTrip`, `YamlText`, `YamlQuotes`). The index-passing loops are methods, proved
  equal to a parser on record lists, which is proved to invert a renderer.
* **Webhook URL validation and redaction** (`WebhookUrl`, `WebhookRedaction`).

`Wrappers`, `Text`, `Bytes` and `Callers` hold shared helpers. Clocks, fresh identifiers, the
matching of model-name patterns and the reading of IP literals are parameters.
Ledger amounts are integers in units of 10^-8, the scale of the column.

Five promises hold only under a condition, which the model states exactly:

* Key expiry of the limiter is invisible as long as the failure window does not
  grow between calls. `LoginLimiter.NeutralExactlyWithoutGrowth` shows that for
  two policies used in turn this condition is also necessary.
* A model is listed exactly when it can be resolved and routed, except under an
  alias whose target is JSON null: listing treats such a name as aliased away,
  resolving treats it as not aliased (`Catalog.NullAliasHidesModel`).
* A rated cost written with a leading plus sign, and only that, makes the settle
  write an amount text that is not a decimal (`SettleAmount.SettleAmountIsDebit`).
* The query of the authorize URL can be read back exactly when no parameter name
  holds `&` or `=`, since only values are escaped (`QueryEncoding.QueryRoundTrip`).
* A single-quoted YAML key that holds one doubled quote is split at the colon
  behind it exactly when that quote ends the key; the comment scanner has no such
  condition (`YamlQuotes.DoubledQuoteEndsKey`, `YamlQuotes.ScannersDiffer`).

## Model

| member | source | states |
|---|---|---|
| `Overdraft.NoOverdraft` | apps/gateway/src/db.rs:1912-2015 | For every wallet owned by a project, selected or not: from a funded state, over every run in which reserves are non-negative and see no more credit than is in force at the time `t` of the claim, each settle of the window happens while its reserve is pending and costs no more than it, and other writers only add money to the window, credit at `t` plus live rows minus floor is never negative |
| `Overdraft.StepKeepsFunded` | apps/gateway/src/db.rs:1912-2369 | Under the same conditions each single reserve, release, settle, refund or foreign insert keeps the wallet funded and its pending holds debits |
| `Overdraft.ReserveStaysInWindow` | apps/gateway/src/db.rs:1813-1830 | A reserve row that a project-owned wallet's balance counts was made by that project and selected that very wallet |
| `Overdraft.ReleaseGivesBack` | apps/gateway/src/db.rs:2056-2072 | In every balance window a release adds back exactly the pending reserves of that request and key |
| `Overdraft.SettleSwapsHoldForCost` | apps/gateway/src/db.rs:2102-2165 | In every balance window an inserted settle gives back what the request held and, in the windows of its project, takes exactly the magnitude of the rated cost |
| `Overdraft.SettleOverdrawsExactly` | apps/gateway/src/db.rs:2102-2171 | The settle has no balance guard: it leaves the window funded if and only if the magnitude of the cost is within the balance plus what the request still holds |
| `Overdraft.SettleUnseenByOtherProjects` | apps/gateway/src/db.rs:2104-2121 | In another project's window on a shared wallet a settle only gives the hold back, because settle rows carry no wallet |
| `ExactlyOnce.ChargedExactlyOnce` | apps/gateway/src/db.rs:2086-2172 | Under any retries of any steps the settle rows of a request are none before its first non-zero settle and exactly that settle's row afterwards |
| `ExactlyOnce.SettleInsertsOnce` | apps/gateway/src/db.rs:2098-2165 | A settle inserts if and only if the cost is non-zero and storable and the request has no charge yet |
| `ExactlyOnce.SettleReportsOnce` | apps/gateway/src/db.rs:2086-2172 | After any run, a settle call reports an insertion if and only if no earlier non-zero settle of the request happened |
| `ChargeAmounts.ChargeIsFirstCost` | apps/gateway/src/db.rs:2086-2172 | Over every run in which nobody else writes the request's settle rows, each of them has amount -cost for a positive and cost for a negative rated cost of the first settle that can be stored, and there is one as soon as such a settle came |
| `ChargeAmounts.RowAmountIsTextValue` | apps/gateway/src/db.rs:2086-2165 | From the text of the cost, in any white space, with at most eight decimals and no plus sign: the settle is skipped if and only if its value is zero, and an inserted row has as amount the value of the text sent to the column |
| `ExactlyOnce.ReservedAtMostOnce` | apps/gateway/src/db.rs:1953-1993 | Under any retries a request never has two reserve rows, live or reversed |
| `ExactlyOnce.ReserveAgreesWithRead` | apps/gateway/src/db.rs:538-583 | With an unused key, a reserve is applied if and only if the pre-authorize read in the same state shows a wallet holding at least the amount; otherwise it is rejected and nothing changes |
| `ExactlyOnce.LiveReplayIsIdempotent` | apps/gateway/src/db.rs:2017-2045 | While the reserve is live and a wallet is selectable, a replay is idempotent whatever the balance; without a wallet it is rejected |
| `ExactlyOnce.ReversedReserveStaysSpent` | apps/gateway/src/db.rs:1991-2045 | Once reversed, a reserve's key stays taken: at every later point of every run a new reserve of the request is rejected and changes nothing |
| `Holds.SettleEndsHold` | apps/gateway/src/db.rs:2102-2165 | Every settle with a storable cost, first or replayed, leaves the request holding nothing in any window, and a replay changes no balance otherwise |
| `Holds.SettledHoldNeverReturns` | apps/gateway/src/db.rs:2139-2165 | Once a reserved request is settled, first or again, it holds nothing at any later point of any run: no retry of any transaction brings a hold back |
| `LedgerRows.WalletThatPays` | apps/gateway/src/db.rs:1914-1924 | Whenever there is an active wallet of the tenant and currency, of the caller's project or of none, one is selected; it is the project's own if there is one, then the oldest, then the one of smallest id |
| `LedgerRows.ReserveWrites` | apps/gateway/src/db.rs:1953-1993 | An applied reserve appends one pending debit of the amount, paid from the selected wallet, under the request's reserve key |
| `LedgerRows.ReserveAnswers` | apps/gateway/src/db.rs:2017-2045 | A storable reserve that found a wallet and was not applied is answered idempotent if and only if a pending or confirmed reserve row of the tenant and request holds the request's key, else rejected |
| `LedgerRows.SettleWrites` | apps/gateway/src/db.rs:2102-2165 | An inserted settle appends one confirmed debit of the cost's magnitude, without a wallet, under the request's settle key, and reverses the request's holds |
| `LedgerRows.RefundWrites` | apps/gateway/src/db.rs:2271-2309 | An applied refund appends one confirmed credit of what is left of the charge, pointing at it and paid back to its wallet |
| `LedgerRows.RefundAnswers` | apps/gateway/src/db.rs:2334-2368 | A refund of an existing charge that was not applied is answered idempotent if and only if a confirmed refund row pointing at the charge holds its refund key, else nothing is refundable |
| `LedgerRows.RefundableCharge` | apps/gateway/src/db.rs:2194-2207 | A refund finds a source if and only if there is a confirmed settle debit of that tenant, request, virtual key and id |
| `LedgerRows.ReverseTouches` | apps/gateway/src/db.rs:2139-2155 | Row by row: exactly the pending paid reserves of that tenant, request and virtual key become reversed, and nothing else of any row changes |
| `LedgerRows.ReportedReleases` | apps/gateway/src/db.rs:2056-2084 | The number of rows a release reports is the number of positions that hold such a reserve |
| `LedgerRows.KeepsOut` | db/migrations/0001_init.sql:755-776 | A row keeps another out if and only if they share the id, the tenant's key, or both are live settles of one request |
| `LedgerRows.RefundsAdd` | apps/gateway/src/db.rs:2254-2261 | A new row adds to a charge's refunds its amount if it is a confirmed refund of that tenant pointing at the charge, else nothing |
| `LedgerKeys.KeysInjective` | apps/gateway/src/db.rs:2605-2619 | Each of the four key functions determines its identifier |
| `LedgerKeys.KeysDisjoint` | apps/gateway/src/db.rs:2605-2619 | Settle, reserve, release and refund keys never coincide, whatever the identifiers |
| `Uuids.HyphenatedInjective` | apps/gateway/src/db.rs:2605-2619 | The printed form of a 128-bit identifier determines it |
| `LedgerRuns.RunExtends` | apps/gateway/src/db.rs:2056-2072 | Over every run the table only grows, rows keep position and contents, and the only change is a pending reserve becoming reversed |
| `LedgerRuns.RunKeepsUnique` | db/migrations/0001_init.sql:755-756 | Over every run no two rows share an id and no two rows of a tenant share a key |
| `LedgerRuns.RunKeepsOneSettle` | db/migrations/0001_init.sql:774-776 | Over every run, other writers included, no request has two settle rows that are not reversed |
| `Refunds.RefundsNeverExceedCharges` | apps/gateway/src/db.rs:2245-2332 | Over every run in which other writers respect the bound, the confirmed refunds against each charge stay between zero and the charge |
| `Refunds.FullRefundIsExact` | apps/gateway/src/db.rs:2245-2332 | After an applied full refund the refunds against the charge are exactly the charge |
| `Refunds.RefundReplay` | apps/gateway/src/db.rs:2309-2368 | A full refund is final: replayed at any later point of any run in which other writers respect the bound, it answers idempotent and changes nothing |
| `Refunds.RunKeepsExhausted` | apps/gateway/src/db.rs:2254-2309 | Over every such run, a charge refunded in full stays refunded in full: its refunds neither grow nor shrink |
| `Lifecycle.RefundUndoesCharge` | apps/gateway/src/db.rs:1793-2369 | For every new request its wallet can pay for, with any transactions of other requests, under fresh ids, before its settle and before its refund, and rows of other writers that leave the request and its charge alone: the reserve is applied, the settle is inserted, the full refund is applied, and what the request's rows contribute to any balance window is first the hold, then the magnitude of the cost, then nothing |
| `Lifecycle.BalanceRestored` | apps/gateway/src/db.rs:1793-2369 | With nothing in between, the same three transactions lower the available balance by the amount, turn that into the magnitude of the cost, and restore it exactly |
| `Lifecycle.RunKeepsOtherRows` | apps/gateway/src/db.rs:1793-2369 | A run of steps about other requests leaves a request's rows, in order and contents, alone |
| `Lifecycle.RunKeepsApart` | apps/gateway/src/db.rs:1793-2369 | Over every run of other requests' transactions, their rows claim none of a request's ids and keys and never point at its charge, so nobody else can refund it |
| `Ledger.SelectWallet` | apps/gateway/src/db.rs:1813-1830 | The wallet selected is eligible and none eligible comes before it (own project first, oldest, smallest id); none only if none is eligible |
| `Ledger.FindSource` | apps/gateway/src/db.rs:2194-2221 | A refund's source is a confirmed debit of that tenant, request and key with that id; none only if there is none |
| `LedgerRepository.Repository.SumLedger` | apps/gateway/src/db.rs:1935-1944 | The loop over the rows computes the window's balance |
| `LedgerRepository.Repository.SumCredit` | apps/gateway/src/db.rs:1925-1934 | The loop over the grants computes the credit in force |
| `LedgerRepository.Repository.SumRefunds` | apps/gateway/src/db.rs:2254-2261 | The loop over the rows computes the confirmed refunds of a charge |
| `LedgerRepository.Repository.Insert` | db/migrations/0001_init.sql:755-776 | Inserts exactly when no row has the id, the tenant's key, or a live settle of the same request; otherwise changes nothing |
| `LedgerRepository.Repository.InsertPendingPaidReserve` | apps/gateway/src/db.rs:1793-2046 | Outcome and new table are those of the atomic reserve step |
| `LedgerRepository.Repository.ReversePending` | apps/gateway/src/db.rs:2056-2072 | The update touches exactly the request's pending paid reserves of that key and returns how many they were |
| `LedgerRepository.Repository.ReleasePendingPaidReserve` | apps/gateway/src/db.rs:2048-2084 | Outcome and new table are those of the atomic release step |
| `LedgerRepository.Repository.InsertConfirmedSettle` | apps/gateway/src/db.rs:2086-2172 | Outcome and new table are those of the atomic settle step; a zero cost touches nothing |
| `LedgerRepository.Repository.InsertFullPaidRefundAfterSettle` | apps/gateway/src/db.rs:2175-2369 | Outcome and new table are those of the atomic refund step |
| `SettleAmount.SettleAmountIsDebit` | apps/gateway/src/db.rs:2621-2639 | For every decimal text with any surrounding white space: nothing is written if and only if the value is zero, else the negated magnitude at the same scale, except that a plus-signed cost gives text that is no decimal |
| `SettleAmount.ReadsDecimals` | apps/gateway/src/db.rs:2621-2639 | The decimal text of w, and of w with the digits d after a point, is a decimal and has exactly that value and scale |
| `Text.WhiteSpaceCodes` | apps/gateway/src/db.rs:2621-2639 | The characters trimmed are the 25 white-space characters of Unicode, and for the chart validator four more |
| `Catalog.ListedMeansRoutable` | apps/gateway/src/db.rs:1016-1299 | For an active profile a model is listed if and only if it is public or internal, not aliased to null, its own name resolves to it and the route query has a candidate for it |
| `Catalog.NullAliasHidesModel` | apps/gateway/src/db.rs:1054-1059 | A name aliased to null is never listed, yet resolves to its model whenever the profile admits it |
| `Catalog.OwnNameResolves` | apps/gateway/src/db.rs:1143-1170 | With unique model keys, a model's own name resolves to it if and only if it meets the lookup's conditions |
| `Catalog.InsertKeepsWellFormed` | db/migrations/0001_init.sql:484-487 | Tables filled under the unique key of tenant and model key, with no empty key, are the ones the catalogue results ask for |
| `Catalog.RouteGivesCandidate` | apps/gateway/src/db.rs:1193-1299 | Whenever the listing's existence test holds, the route query, which joins through one best key per channel, returns a candidate |
| `Catalog.CandidateGivesRoute` | apps/gateway/src/db.rs:1060-1107 | Whenever the route query returns a candidate, the listing's existence test holds |
| `Catalog.BestKey` | apps/gateway/src/db.rs:1234-1268 | The key used on a channel is eligible and no eligible one has better status, health, id; none only if none is eligible |
| `Catalog.BestKeyOrder` | apps/gateway/src/db.rs:1234-1268 | Whenever a key of the channel could serve, one is used; it is enabled if an enabled one could serve, else probing, else cooled, else degraded; among keys of equal status it is the healthiest, then the one of smallest id |
| `Catalog.SameKeys` | apps/gateway/src/db.rs:1083-1093 | The listing's and the routing's separately written key conditions accept the same keys: those of the tenant and channel that are usable at the time |
| `Catalog.AliasResolves` | apps/gateway/src/db.rs:1143-1170 | A name the active profile maps to a model's key, or an unmapped name that is the key, resolves to that model if and only if the model is active, not deleted, of the caller's tenant, and the profile allows and does not deny it |
| `Catalog.PlainNameResolves` | apps/gateway/src/db.rs:1143-1170 | For a caller without a profile a model's key resolves to it if and only if the model is active, not deleted and of the caller's tenant |
| `Catalog.ProfileInForce` | apps/gateway/src/db.rs:1026-1034 | The profile used is the caller's own, of the caller's tenant and project, active and not deleted, and one is used whenever there is one |
| `Catalog.NoProfileInForce` | apps/gateway/src/db.rs:1143-1170 | A caller whose profile is not in force is shown no model, and no name resolves |
| `ProviderKeys.KeyTable.UpdateRuntimeStatus` | apps/gateway/src/db.rs:426-448 | The update rewrites exactly the rows the report concerns, and says whether there was one |
| `ProviderKeys.TerminalIsAbsorbing` | apps/gateway/src/db.rs:426-448 | No run of runtime reports changes anything of a manually disabled or deleted key |
| `ProviderKeys.CooldownHolds` | apps/gateway/src/db.rs:426-448 | Whatever is reported about other keys, a key cooled for m milliseconds, m of either sign, is usable at an instant if and only if m milliseconds have passed, its status serves and it is not deleted |
| `ProviderKeys.ReportRewrites` | apps/gateway/src/db.rs:426-448 | Row by row: a report rewrites a key if and only if tenant, id and channel are its own, the channel is live and of the reporting provider, and the key is neither disabled by hand nor deleted; then status and cooldown are the report's and nothing else changes |
| `ProviderKeys.UncooledServes` | apps/gateway/src/db.rs:426-448 | After a report without a cooldown, until another report about it, the key is usable at every instant if and only if it is not deleted and the status reported is enabled, degraded or recovery probe |
| `ProviderKeys.HealthyKeyServes` | apps/gateway/src/db.rs:1193-1299 | For a caller without a profile, an enabled key that never cooled, on a live channel of an enabled provider that an association of the model reaches, gives the model a candidate with an enabled key and is itself fetched for an attempt |
| `ProviderKeys.UnusableNowhere` | apps/gateway/src/db.rs:1083-1093 | With an unusable key removed from the table, the model listing, the route candidates and the attempt lookup all answer the same, for every caller, model and argument |
| `ProviderKeys.CooledNowhere` | apps/gateway/src/db.rs:426-448 | A key cooled for m milliseconds is invisible to all three queries at every instant before they have passed, over every run of reports about other keys |
| `ProviderKeys.RoutedKeyStaysFetchable` | apps/gateway/src/db.rs:2371-2404 | The key of a routed candidate is fetched unchanged at every later time, whatever is reported about other keys in between |
| `ProviderKeys.FetchKey` | apps/gateway/src/db.rs:2378-2404 | A fetched key is the one asked for, on that live channel, and usable; none only if there is none such |
| `ProviderKeys.FetchedKey` | apps/gateway/src/db.rs:2378-2404 | Field by field: what is fetched is a key of the tenant with the id and channel asked for, not deleted, usable, its channel live and of the provider asked for; and something is fetched whenever there is such a key |
| `ProviderKeys.FetchesUsable` | apps/gateway/src/db.rs:2378-2404 | On a live channel the attempt lookup accepts a key if and only if the routing query does |
| `RateWindows.AdmissionIsExact` | apps/gateway/src/db.rs:858-975 | From a meter with any prior grants, after any run in time, a request is granted if and only if the key is open and what its minute has granted so far leaves room under the cap, and used and remaining report exactly that sum |
| `RateWindows.MinuteIsCapped` | apps/gateway/src/db.rs:858-975 | From a meter with any prior grants, over any run that asks with one limit in that minute, the minute grants at most max(limit, 1) requests and at most limit tokens, prior grants included whenever it grants anything |
| `RateWindows.AnySixtySeconds` | apps/gateway/src/db.rs:858-975 | Any sixty-second span, with one limit in its two minutes, grants at most twice that |
| `RateWindows.StartedMeterTracks` | apps/gateway/src/db.rs:870-885 | Whatever a started meter holds is the sum of some prior grants, so the run claims apply to it |
| `RateWindows.SlotsAreConserved` | apps/gateway/src/db.rs:816-1010 | From any number of slots in use, while releases are paired, the stored number is that number plus the slots taken and not given back, and a grant never exceeds its limit |
| `RateWindows.OnlyOpenKeysAreGranted` | apps/gateway/src/db.rs:816-975 | Nothing is granted to a key that is missing, deleted, inactive or of another tenant |
| `RateWindows.MissingCountsAreZero` | apps/gateway/src/db.rs:816-975 | Counters missing from the stored document count as zero: the first request, tokens or slot of an open key are granted within the limit with the exact remainder |
| `RateWindows.ReleaseLowers` | apps/gateway/src/db.rs:977-1010 | A release lowers the tenant's key's slots by one, never below zero, and leaves a deleted or foreign key alone |
| `RateWindows.VirtualKeys.AcquireRpmSlot` | apps/gateway/src/db.rs:858-912 | Over the whole history served, whatever had been granted before it, the reply is the exact one for what the minute has granted; other keys are unchanged, and a refusal changes nothing |
| `RateWindows.VirtualKeys.AcquireTpmCapacity` | apps/gateway/src/db.rs:914-975 | The same for token amounts |
| `RateWindows.VirtualKeys.AcquireConcurrencySlot` | apps/gateway/src/db.rs:816-856 | Granted if and only if the key is open with a slot left; over the whole history the number in use is what it was plus the slots taken and not given back, and a grant never exceeds its limit |
| `RateWindows.VirtualKeys.ReleaseConcurrencySlot` | apps/gateway/src/db.rs:977-1010 | Over the whole history the number in use stays what it was plus the slots taken and not given back; other keys are unchanged |
| `PriceSelection.PriceIsGlobalOptimum` | apps/gateway/src/db.rs:450-536 | A price is found if and only if the model is in force and some selector's book offers an eligible version, and it is the lexicographically first of all eligible pairs of selector and version |
| `PriceSelection.PrecedenceOfBooks` | apps/gateway/src/db.rs:450-536 | On the rows themselves, with the model active: the price is the best offer of the profile's default book if that offers any, else of the project's, else of the tenant's, else of the model's, and there is none if none of them offers any |
| `PriceSelection.NoModelNoPrice` | apps/gateway/src/db.rs:450-536 | Without an active model row there is no price |
| `PriceSelection.BestVersion` | apps/gateway/src/db.rs:516-533 | The lateral query returns an eligible version of the book before which no eligible one comes; none only if there is none |
| `Cidr.PrefixIsArithmetic` | apps/gateway/src/db.rs:2792-2814 | The byte-and-mask test holds if and only if the prefix length is in range and the big-endian addresses have equal quotients by 2^(width - prefix) |
| `Cidr.ShorterPrefixMatches` | apps/gateway/src/db.rs:2792-2814 | A match at a longer prefix is a match at every shorter one |
| `Cidr.MaskedEqual` | apps/gateway/src/db.rs:2812-2813 | Two octets agree under the mask if and only if their leading bits agree |
| `Cidr.NumberOfAddress` | apps/gateway/src/db.rs:2792-2814 | Four octets denote the number they spell in base 256 |
| `LoginLimiter.ExpiryIsNeutral` | apps/control-plane/src/auth_login_rate_limit.rs:22-75 | From any related pair of stores, malformed values included, after any run with time moving forward and the window not growing, the next step gets the same reply as on a store that never expires or deletes |
| `LoginLimiter.NeutralExactlyWithoutGrowth` | apps/control-plane/src/auth_login_rate_limit.rs:22-75 | A failure under one policy and a check under another agree with the idealised store for all keys and times if and only if the second window is no longer than the first |
| `LoginLimiter.GrowingWindowShowsExpiry` | apps/control-plane/src/auth_login_rate_limit.rs:69 | For every growing pair of windows, the check at the instant of expiry is answered differently |
| `LoginLimiter.BackendsAgree` | crates/auth/src/login_rate_limit.rs:49-124 | From any stores related to one idealised store, the scripts and the in-memory store give the same flag and delay at every step of every run, and the same count up to the 32 bits of the in-memory one |
| `LoginLimiter.MemoryIsNeutral` | crates/auth/src/login_rate_limit.rs:49-124 | Over every such run the in-memory store answers like the idealised one, its count cut to 32 bits |
| `LoginLimiter.ReplySurvivesWire` | apps/control-plane/src/auth_login_rate_limit.rs:559-589 | A script reply, written to the wire with anything after it, decodes to the decision it stands for, and fails closed when the count exceeds 32 bits |
| `LoginLimiter.OnlyDecodedRepliesAdmit` | apps/control-plane/src/auth_login_rate_limit.rs:332-377 | Whatever bytes arrive, a login is let through if and only if they hold a complete three-integer reply that is not limited and in range; every other answer carries a retry delay of at least one second |
| `LoginLimiter.OnlyTheseBytesAdmit` | apps/control-plane/src/auth_login_rate_limit.rs:332-377 | On the bytes: a login is let through if and only if the stream starts with a three-item array of integers, in range, that says not limited; an empty stream and one that starts as an error, status, integer or bulk reply limits the key for the policy's whole window |
| `LoginPolicies.KthFailureLimits` | apps/control-plane/src/auth_login_rate_limit.rs:22-75 | For every burst of failures in one window: the k-th is answered as limited if and only if k has reached the policy's own max_failures, with the time left of the policy's own window_seconds; a check says the same until the window ends and nothing from then on |
| `LoginPolicies.KthFailureLimitsInMemory` | crates/auth/src/login_rate_limit.rs:49-124 | The same for the in-memory store |
| `LoginPolicies.ClockGoesBack` | crates/auth/src/login_rate_limit.rs:49-124 | When the clock goes back behind the start of a window, the in-memory store keeps that window and goes on counting in it |
| `LoginAttempts.FailuresPerWindowAreBounded` | apps/control-plane/src/auth.rs:334-451 | From any store in order, over every run of logins on any keys, rejected, accepted or aborted by an error, without a success of this key, a failure window, as long as the policy's own window_seconds, lets through at most the policy's own max_failures (zero counting as one) less what it held at first, each pass lies in its window, and windows do not overlap |
| `LoginAttempts.LoginEnds` | apps/control-plane/src/auth.rs:334-451 | A login is blocked, with the time left of the window, if and only if the open window holds the policy's number of failures; otherwise it ends by its verdict, and the rejection that fills the window already says how long to wait |
| `LoginAttempts.LimitedForExactlyRetryAfter` | apps/control-plane/src/auth_login_rate_limit.rs:22-75 | From any store in order and after any run on it, once the reply to a check or to a recorded failure limits a key, then whatever checks and failures follow, the key is limited at a later time if and only if that time is before the announced end, with the delay counting down to it |
| `LoginAttempts.RunKeepsInv` | apps/control-plane/src/auth_login_rate_limit.rs:51-75 | Over every such run the stored counter is what its window held at first plus the passes of that window |
| `LoginStores.RedisStore.CheckScript` | apps/control-plane/src/auth_login_rate_limit.rs:22-50 | After any operations on any first contents in order, a steady check is answered as by a store that has served the same operations and never expires or deletes; the operation joins the history |
| `LoginStores.RedisStore.RecordScript` | apps/control-plane/src/auth_login_rate_limit.rs:51-75 | The same for a recorded failure |
| `LoginStores.RedisStore.Delete` | apps/control-plane/src/auth_login_rate_limit.rs:323-330 | The next check of the key, at any time and under any policy, reports no failures; every other key shows what it showed; the operation joins the history |
| `LoginStores.MemoryStore.CheckFailures` | apps/control-plane/src/auth_login_rate_limit.rs:148-167 | After any operations, a steady check is answered as by a store that has served the same operations and never deletes, its count cut to 32 bits; the operation joins the history |
| `LoginStores.MemoryStore.AddFailure` | apps/control-plane/src/auth_login_rate_limit.rs:169-182 | The same for a recorded failure |
| `LoginStores.MemoryStore.Forget` | apps/control-plane/src/auth_login_rate_limit.rs:184-190 | The next check of the key, at any time and under any policy, reports no failures; every other key keeps its counter; the operation joins the history |
| `Resp.CommandRoundTrip` | apps/control-plane/src/auth_login_rate_limit.rs:485-557 | Any list of byte strings, CR LF included, encoded and followed by any bytes, reads back as the array of those bulk strings and leaves exactly those bytes |
| `Resp.ReadInvertsRender` | apps/control-plane/src/auth_login_rate_limit.rs:496-545 | For every well-formed response, however nested, the reader returns exactly it and leaves exactly the tail |
| `Resp.ReadErrorLine` | apps/control-plane/src/auth_login_rate_limit.rs:496-545 | For every valid UTF-8 text without line feed, a minus sign, the text, CR LF and any tail reads as an error reply and leaves exactly the tail |
| `Resp.EncodeCommand` | apps/control-plane/src/auth_login_rate_limit.rs:485-494 | The encoder's loop produces the rendering of the array of its parts as bulk strings |
| `Resp.ReadResponse` | apps/control-plane/src/auth_login_rate_limit.rs:496-545 | Every response read consumes input, which is why nested arrays terminate |
| `Resp.ReadLineInverts` | apps/control-plane/src/auth_login_rate_limit.rs:547-557 | A line ended by CR LF reads back as its text and leaves the tail |
| `Utf8.ValidIsEncoded` | apps/control-plane/src/auth_login_rate_limit.rs:547-557 | The text check of a line accepts a byte string if and only if it is the UTF-8 encoding of a sequence of Unicode scalar values |
| `Resp.ParseInverts` | apps/control-plane/src/auth_login_rate_limit.rs:496-545 | Every signed 64-bit integer reads back from its decimal text |
| `Resp.IntegersAre64Bit` | apps/control-plane/src/auth_login_rate_limit.rs:496-545 | The decimal text of any integer reads as that integer if it fits 64 bits with sign and is refused otherwise |
| `Resp.OneByteInteger` | apps/control-plane/src/auth_login_rate_limit.rs:496-545 | A single byte reads as a number if and only if it is a decimal digit, and then as its value |
| `Resp.Connection.TakeLine` | apps/control-plane/src/auth_login_rate_limit.rs:547-557 | Takes from the stream exactly what the line reader specifies |
| `Resp.Connection.TakeResponse` | apps/control-plane/src/auth_login_rate_limit.rs:496-545 | Takes from the stream exactly what the response reader specifies |
| `Resp.Connection.TakeItems` | apps/control-plane/src/auth_login_rate_limit.rs:529-542 | The item loop reads exactly the given number of responses, or fails as specified |
| `OidcStates.SizeIsBounded` | apps/control-plane/src/auth.rs:887-893 | In every run the store holds at most 2048 entries |
| `OidcStates.ValidHasInsertion` | apps/control-plane/src/auth.rs:895-912 | A valid callback answers an unexpired insertion of that state for that provider which no event since has touched |
| `OidcStates.ValidOncePerInsertion` | apps/control-plane/src/auth.rs:895-912 | Between two valid callbacks of one state lies a new insertion of it |
| `OidcStates.LiveStateLostOnlyByEviction` | apps/control-plane/src/auth.rs:881-930 | A live, untouched state is accepted for its provider if and only if it was not evicted from a full store in which no entry expired earlier |
| `OidcStates.AnswersMean` | apps/control-plane/src/auth.rs:895-912 | A callback for a state whose last insertion no event has touched since is answered missing if the entry was pruned or evicted meanwhile, else expired if its time is over, else valid if provider and nonce are in order, else missing |
| `OidcStates.UnknownIsMissing` | apps/control-plane/src/auth.rs:895-912 | A callback for a state never inserted, or presented since its last insertion, is answered missing |
| `OidcStates.OldestExpiresFirst` | apps/control-plane/src/auth.rs:919-929 | The entry evicted expires no later than any other and comes first, in key order, of those that expire with it |
| `OidcStates.OldestExists` | apps/control-plane/src/auth.rs:919-929 | A store that is not empty has such an entry |
| `OidcStates.EntryHasInsertion` | apps/control-plane/src/auth.rs:881-930 | Every entry of every reachable store comes from an insertion that no later event touched |
| `OidcStates.OidcStateStore.PruneExpired` | apps/control-plane/src/auth.rs:914-917 | Removes exactly the entries that have expired |
| `OidcStates.OidcStateStore.RemoveOldest` | apps/control-plane/src/auth.rs:919-929 | The loop removes exactly one entry, which expires first and has the smallest key among those |
| `OidcStates.OidcStateStore.Insert` | apps/control-plane/src/auth.rs:887-893 | Stores the record, keeps the map within 2048 entries, and removes otherwise only expired entries and, if still full, one that expires first; the insertion joins the history |
| `OidcStates.OidcStateStore.ValidateAndConsume` | apps/control-plane/src/auth.rs:895-912 | Removes the state whatever the answer; over the whole history a valid answer means an insertion is being answered, and a callback that answers an insertion is accepted if and only if that state was not evicted meanwhile |
| `OidcStates.OidcStateStore.Persist` | apps/control-plane/src/auth.rs:687-705 | Stores the state with an expiry 300 seconds ahead and keeps the map within 2048 entries; the insertion joins the history |
| `QueryEncoding.QueryRoundTrip` | apps/control-plane/src/auth.rs:1591-1599 | Splitting the built query on `&` and `=` and decoding recovers the parameters, none included, in order and for arbitrary bytes, if and only if no name holds a separator; the query follows the base behind `&` if the base holds a `?`, else behind `?` |
| `QueryEncoding.DecodeInverts` | apps/control-plane/src/auth.rs:1601-1612 | Percent-decoding inverts the encoder for arbitrary bytes |
| `QueryEncoding.EncodedIsSafe` | apps/control-plane/src/auth.rs:1601-1612 | Encoded values consist of single unreserved characters and percent signs with two of 0-9A-F, the latter only for bytes that are not unreserved |
| `QueryEncoding.CanonicalIsEncoded` | apps/control-plane/src/auth.rs:1601-1612 | Every such text is the encoding of what it decodes to, so encoder and decoder are inverse bijections |
| `QueryEncoding.PercentEncode` | apps/control-plane/src/auth.rs:1601-1612 | The byte loop computes the encoding |
| `YamlRoundTrip.ParseInvertsRender` | deploy/helm/validate_chart.py:123-195 | For every renderable mapping or list at any indentation, parsing its canonical records returns exactly it and consumes every record |
| `YamlRoundTrip.BlockInverts` | deploy/helm/validate_chart.py:123-195 | The same for a block followed by any less indented records, which are left over |
| `YamlRoundTrip.MergeInverts` | deploy/helm/validate_chart.py:152-168 | The keys after the first of a list item come back as one nested mapping and are merged behind it |
| `YamlRoundTrip.SplitInverts` | deploy/helm/validate_chart.py:54-70 | A well-formed key, quotes included, and its inline value are split apart again |
| `YamlRoundTrip.BareKeyIsEmpty` | deploy/helm/validate_chart.py:178-195 | A key without a value and without a deeper block after it stands for an empty mapping |
| `YamlText.LoadInvertsRender` | deploy/helm/validate_chart.py:28-195 | From text: any document whose records are the rendering of a value, with any blanks and comments after them and any blank or comment-only lines between them, loads as that value, if no key or scalar holds a comment mark and quotes are closed in keys and before comments |
| `YamlText.LineInverts` | deploy/helm/validate_chart.py:28-51 | Indentation and content of one line survive comment stripping whatever blanks follow, and whatever comment if the quotes are closed |
| `YamlText.FillerVanishes` | deploy/helm/validate_chart.py:107-111 | A line of blanks, with or without a comment, yields no record |
| `YamlQuotes.QuotedKeyIsOne` | deploy/helm/validate_chart.py:54-70 | For every key made of plain characters and quoted stretches, colons between quotes do not split it and the colon behind it does, whatever follows |
| `YamlQuotes.QuotedTextHoldsNoComment` | deploy/helm/validate_chart.py:28-51 | For every text made of plain characters and quoted stretches, with hashes between quotes, single quotes doubled and characters escaped by backslash: a line of it is read back whole, and a comment behind it is cut off; counting backslashes by parity is the same as escaping one character at a time |
| `YamlQuotes.DoubledQuoteEndsKey` | deploy/helm/validate_chart.py:54-66 | A single-quoted key that holds one doubled quote is split at the colon behind it if and only if that quote is its last character |
| `YamlQuotes.ScannersDiffer` | deploy/helm/validate_chart.py:28-70 | A key for which the comment scanner and the splitter disagree |
| `YamlText.ScanComment` | deploy/helm/validate_chart.py:28-51 | The quote-tracking loop finds the specified comment position |
| `YamlText.CountBackslashes` | deploy/helm/validate_chart.py:39-46 | The inner loop counts the backslashes directly before a position |
| `YamlText.StripLine` | deploy/helm/validate_chart.py:28-51 | The scanning loop and the trimming of its result give the stripped line |
| `YamlText.ReadLine` | deploy/helm/validate_chart.py:107-113 | One line gives its record, none if blank, or the tab error |
| `YamlText.LoadRecords` | deploy/helm/validate_chart.py:104-113 | The line loop gathers all records in order, or stops at the first error |
| `YamlText.Load` | deploy/helm/validate_chart.py:104-120 | Loading is record gathering followed by the whole-document parse |
| `YamlParser.ParseBlockAt` | deploy/helm/validate_chart.py:123-195 | The index-passing parser agrees with the record parser in value, position and error, and has advanced whenever there was a record to read |
| `YamlParser.ParseListAt` | deploy/helm/validate_chart.py:135-176 | The list loop agrees with its specification |
| `YamlParser.ParseItemAt` | deploy/helm/validate_chart.py:145-175 | One list item agrees with its specification and advances |
| `YamlParser.MergeNestedAt` | deploy/helm/validate_chart.py:162-168 | The loop that merges nested mappings into an item agrees with its specification |
| `YamlParser.ParseMappingAt` | deploy/helm/validate_chart.py:178-195 | The mapping loop agrees with its specification |
| `YamlParser.ParseFieldAt` | deploy/helm/validate_chart.py:187-194 | One key of a mapping agrees with its specification and advances |
| `YamlParser.ParseDocument` | deploy/helm/validate_chart.py:114-120 | The document parse agrees with its specification, trailing records being an error |
| `YamlSubset.ParseBlock` | deploy/helm/validate_chart.py:123-195 | Every successful parse of a block that starts at the asked indentation consumes a record |
| `YamlSubset.UpdateNew` | deploy/helm/validate_chart.py:162-168 | Merging mappings with distinct keys appends them in order |
| `YamlSubset.ScanColon` | deploy/helm/validate_chart.py:54-66 | The quote-tracking loop finds the specified colon |
| `YamlSubset.SplitAtColon` | deploy/helm/validate_chart.py:54-70 | Key and value are split, trimmed and checked as specified |
| `WebhookRedaction.RedactionIsFixedPoint` | apps/worker/src/alert_webhook.rs:1294-1496 | For every accepted URL, validating its redacted form succeeds and gives the same host, port, flags and redacted form, bracketed hosts included |
| `WebhookRedaction.GoodUrlIsAccepted` | apps/worker/src/alert_webhook.rs:1294-1331 | Every short URL made of a good host, an optional port and anything after a delimiter, with any white space around it, is accepted with that host and port and with the flags of its path and query |
| `WebhookRedaction.AllowedHosts` | apps/worker/src/alert_webhook.rs:1388-1428 | A host is accepted if and only if it is not empty, not local or under a local suffix, and either an address that is not forbidden or a dotted name of well-formed labels of at most 253 characters |
| `WebhookRedaction.AcceptedIsExternal` | apps/worker/src/alert_webhook.rs:1294-1331 | Every accepted URL is at most 2048 bytes, starts with https://, names no user and has an accepted host |
| `WebhookRedaction.AuthorityParses` | apps/worker/src/alert_webhook.rs:1333-1374 | The printed authority of any validated host and port, bracketed or not, parses back to them |
| `WebhookRedaction.ValidatedHostIsGood` | apps/worker/src/alert_webhook.rs:1376-1428 | A normalised host passes validation if and only if it does and is also short, lower-case, free of delimiters and of trailing dots |
| `WebhookRedaction.MarkFlags` | apps/worker/src/alert_webhook.rs:1380-1386 | The redaction marks are read back as exactly the path and query flags they stand for |
| `WebhookRedaction.LengthIsUtf8` | apps/worker/src/alert_webhook.rs:1294-1331 | The length that is limited is the number of bytes of the text's UTF-8 encoding |
| `WebhookRedaction.LoweredAndFlagged` | apps/worker/src/alert_webhook.rs:1376-1386 | Upper-case letters of a host become their lower-case ones and nothing else changes; a path is flagged if and only if the slash is followed by a character that starts neither query nor fragment |
| `WebhookUrl.BuildRedacted` | apps/worker/src/alert_webhook.rs:1473-1496 | The text pushed together piece by piece is the redacted URL |

## Left out

- Shared tenant-level wallets are not part of `Overdraft.NoOverdraft`: settle rows name no wallet, so a balance window is per project (see `Overdraft.SettleUnseenByOtherProjects`).
- Postgres isolation, row locks and connection errors: each transaction is one atomic step.
- Foreign keys of ledger rows, usage and policy snapshots, price-version and trace columns, and the currency pattern check are not modelled.
- Ledger amounts finer than 10^-8 and exponent notation in cost text are not modelled.
- The 32-bit and 64-bit overflow errors of the token, request and slot counters are not modelled; the counters are unbounded.
- Redis: sub-second expiry, a clock different from the callers', floating-point rounding inside Lua, and saturation of 64-bit times are not modelled; time is whole seconds on one clock.
- Resp.Connection.TakeResponse: does not say where the stream stands after a failed read, and memory exhaustion on a huge announced length is not modelled.
- YAML: what a scalar's text denotes beyond `{}` and `[]`, line numbers in messages, splitting a file into lines, and the chart rules checked after parsing are not modelled.
- Route candidates are a set: their order, weights and the regular expressions of model patterns are not modelled.
- The IP allowlist's JSON form and the textual IP and CIDR readers are not modelled; the address comparison is.
- WebhookRedaction.RedactionIsFixedPoint: takes the IP literal reader and the forbidden-address test as a parameter of which only the alphabet and length of literals are known.
- The webhook sender's retry loop, header and secret checks would only add easy members.
- OIDC callback parsing, provider configuration, token exchange and the random source are not modelled.
- Budgets, audit logs, sessions, role checks, HTTP handlers, environment parsing and the user interfaces are not modelled.
