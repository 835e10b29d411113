# Verification of the ESP RainMaker server

This project models the parts of the server that fold device messages and user calls into one relational
store, and proves what every run of them keeps. `Database` in `Store.dfy` holds the tables. Each service has
a module: pure step functions over the tables it uses, theorems about all runs of those steps, and methods
that take the database, follow the code, and are proved equal to the steps.

| file | part of the system |
|---|---|
| `ParamsShadow.dfy` | the two-level merge of reported params |
| `Topics.dfy` | topic printing and splitting, publish and subscribe authorisation, section 4.7 of MQTT 3.1.1 |
| `TimeSeries.dfy`, `SeriesQuery.dfy` | typed ingestion, bulk and simple messages, raw and bucketed queries |
| `Ownership.dfy` | mapping challenges, sharing, access, unmapping |
| `Ingestor.dfy` | message dispatch, projection onto nodes, redelivery |
| `Claims.dfy` | claiming, certificates, HTTP and MQTT identity |
| `Ota.dfy` | images, jobs and the queue of a node |
| `Groups.dfy` | the group forest and its cascade |
| `Tokens.dfy`, `Users.dfy` | accounts, refresh tokens, account deletion |

Each call is one atomic step. The clock is read once in a step; random ids, signatures, HMACs, password
hashing and library conversions are parameters, so every theorem holds for all of them. An exception that the
code does not handle is the error `Crash`; what was committed before it stays.

Seven calls are straight lines: `RequestLegacyMapping`, `StartChallenge`, `DeleteUserNode`,
`InitiateAssistedClaim`, `ConfirmImageUpload`, `UpdateOtaStatus` and `SignUpUser`. Each is proved to do to the
database what its step does, and has no row below; what matters about them is in the theorems about the steps.

## What turned out otherwise

- The docstring of `app/mqtt/router.py` and the README name the subscription `node/+/+`; the code subscribes to
  `node/+/#`, which is what `IngestorFilterCovers` is about.
- `verify_assisted_claim` and `get_status_for_node` order by newest first but ask for one row, so two rows are an
  exception. `AssistedIff` and `StatusAnswersIff` say exactly when they answer; `AssistedDeadlock`,
  `ExpiredClaimBlocks` and `StatusQueryLost` show that neither recovers by any call.
- `create_request` says that further nodes are linked to the returned request. They are separate requests with
  ids of their own; `SharingFlow` is about one of them at a time.
- The user-mapping handler says that it pairs the secret with a challenge of the same user. It does not look at
  the reported user (`ReportedUserIgnored`, `NamesOneMapsAnother`); whom it maps is exact in `ReportMapsAsker`.
- It also says that further publishes of a completed secret are no-ops. A report that fails because its node has no
  row yet is not settled, and may map the user when it is redelivered (`LateNodeMaps`, `RedeliveredReportsIff`).
- Unmapping does not revoke shares (`SharesOutliveUnmap`), and a password change does not end sessions (`RefreshIff`).
- Attribution of publishes and confinement of filters have exact conditions on the name: an inner slash or a
  level `+` falls outside them (`AttributionIff`, `SubscriptionsConfinedIff`).
- Redelivered time-series messages store their rows again (`SeriesRepeat`, `RedeliveredSeriesIff`).

## Model

| member | source | states |
|---|---|---|
| `ParamsShadow.MergeParams` | app/services/node.py:38-46 | The loop over the update's items, taken in any order, yields the two-level merge: per device, objects are overlaid and anything else replaces. |
| `ParamsShadow.BatchingIff` | app/services/node.py:38-46 | Exact batching law: merging two updates first gives the same shadow if and only if no device is an object in the first, a non-object in the second and an object in the third that lacks a key of the first. |
| `ParamsShadow.BatchingCanFail` | app/services/node.py:38-46 | The merge is not associative: object, scalar, object is a counterexample. |
| `ParamsShadow.GroupingIsFree` | app/services/node.py:38-46 | Payloads whose device values are all objects may be coalesced in any grouping, on any shadow. |
| `ParamsShadow.ShadowIsLastWriter` | app/services/node.py:38-62 | After any updates a param holds a value exactly when some update set it and every later report for the device was an object silent about the param. |
| `ParamsShadow.ShadowDevices` | app/services/node.py:38-62 | A device is in the shadow exactly when some update mentioned it. |
| `ParamsShadow.ShadowScalars` | app/services/node.py:38-62 | A device holds a non-object exactly when that value was its last report. |
| `ParamsShadow.RedeliveryRestores` | app/services/node.py:38-62 | Updates replayed in any order and number, then all of them in order, leave the shadow as it was, whatever the device values are. |
| `ParamsShadow.UpsertIsReplay` | app/services/node.py:49-62 | Upserting into a missing row is the same as merging into an empty shadow. |
| `Topics.SplitIffPrinted` | app/mqtt/router.py:54-61 | Printer and splitter are inverse: a topic splits into (id, suffix) exactly when it is printed from them, the id is a non-empty single level and the suffix is not empty. |
| `Topics.PublishIff` | app/services/vmq_authz.py:60-74 | The backend may publish any topic; a device exactly those under node/, its own name and a slash. |
| `Topics.AttributionIff` | app/services/vmq_authz.py:60-74 | Everything a name may publish is dropped or attributed to that name, if and only if the name has no slash, or begins with one. |
| `Topics.InnerSlashIsMisread` | app/services/vmq_authz.py:60-74 | A name with an inner slash is allowed a topic that the splitter attributes to its first level. |
| `Topics.SubscriptionsConfinedIff` | app/services/vmq_authz.py:60-90 | Under section 4.7 of MQTT 3.1.1 the prefix check confines every accepted filter to the name's namespace, if and only if the name does not itself act as a wildcard. |
| `Topics.LiteralNameIsConfined` | app/services/vmq_authz.py:60-90 | For a name without wildcard levels every topic matched by an accepted filter is node/CN or lies under node/CN/. |
| `Topics.IngestorFilterCovers` | app/entrypoints/mqtt_ingestor.py:40 | The splitter accepts exactly the topics that match node/+/# and have a non-empty id and suffix. |
| `Topics.AuthoriseSubscribe` | app/services/vmq_authz.py:77-90 | The early-exit loop accepts a list exactly when the caller is the backend, or is named and every filter begins with node/, the name and a slash. |
| `Ingestor.ConfigTopic` | app/mqtt/router.py:95-99 | A message under node/id/config creates the node row if the id fits and, if the version is absent, null or a text that fits, sets exactly that config row; nothing else. |
| `Ingestor.ParamsTopics` | app/mqtt/router.py:102-106 | An object under node/id/params/local or params/local/init is merged into exactly that node's shadow, or starts it. |
| `Ingestor.MappingTopic` | app/mqtt/router.py:241-250 | A message under node/id/user/mapping is the ownership machine's device report, and nothing else. |
| `Ingestor.SeriesTopic` | app/mqtt/router.py:241-250 | A message under node/id/tsdata appends its bulk rows to the series, and does nothing else. |
| `Ingestor.SimpleSeriesTopic` | app/mqtt/router.py:241-250 | A message under node/id/simple_tsdata appends its row to the series, and does nothing else. |
| `Ingestor.OtherTopics` | app/mqtt/router.py:71-87 | A message without a payload, or under any other topic, changes nothing. |
| `Ingestor.UpdatesAre` | app/mqtt/router.py:241-250 | The updates of a node that the log theorems speak of are the objects under its two params topics. |
| `Ingestor.ConfiguresAre` | app/mqtt/router.py:241-250 | The configs of a node that they speak of are the objects under its config topic. |
| `Ingestor.HandleProjects` | app/mqtt/router.py:71-250 | A message changes only the rows of its own node, and what it does to them depends on no other rows. |
| `Ingestor.LogProjects` | app/mqtt/router.py:71-250 | Per-node projection: the rows of a node after a log are what its own messages make of its own rows. |
| `Ingestor.InterleavingsAgree` | app/entrypoints/mqtt_ingestor.py:36-67 | Two interleavings that keep each node's order, whenever the replicas dispatch them, leave the same configs, shadows, node rows and time series for every node, and the same rows altogether if the node's mapping reports come at the same times. |
| `Ingestor.OwnMessagesSuffice` | app/mqtt/router.py:71-250 | A node's messages alone give it the same rows as the whole log. |
| `Ingestor.OnlyReportsAreTimed` | app/mqtt/router.py:71-250 | Over any log the clocks of all messages but mapping reports are without effect. |
| `Ingestor.PublishConfined` | app/services/vmq_authz.py:65-74 | A publish authorised for a slash-free name changes no rows but those of the node of that name. |
| `Ingestor.MessageIsOwnershipStep` | app/mqtt/router.py:95-166 | To the ownership tables a message is nothing, a node appearing, or a device report. |
| `Ingestor.LogKeepsOwnership` | app/mqtt/router.py:71-166 | Any message log keeps the ownership invariant. |
| `Ingestor.TablesAreSeparate` | app/mqtt/router.py:71-106 | Configs, shadows and node rows evolve by themselves, whatever other messages are in the log. |
| `Ingestor.NodesAfter` | app/mqtt/router.py:26-36 | A node row is there exactly when it was before, or its id fits and some config or params object came for it, even if the config itself was refused. |
| `Ingestor.ShadowAfter` | app/services/node.py:49-62 | The stored shadow of a node is the upsert of its own params updates, in order. |
| `Ingestor.ConfigIsLast` | app/services/node.py:20-35 | The stored config of a node is that of its last config message the columns accept. |
| `Ingestor.StoredShadowIsLastWriter` | app/services/node.py:38-62 | After any log the stored shadow is the last-writer view of the params messages for the node. |
| `Ingestor.DeliveredShadowIsLastWriter` | app/mqtt/router.py:71-106 | From topics to shadows: whatever is delivered, a new shadow is the last-writer view of the objects under the node's own params topics. |
| `Ingestor.RedeliveryTolerated` | app/mqtt/router.py:95-106 | After a stretch of log, its messages may recur at any later times, in any order and number; once it has been redelivered in order, configs, shadows and nodes are as they were. |
| `Ingestor.AtLeastOnceIsEnough` | app/mqtt/router.py:95-106 | Any at-least-once delivery of a log, with redeliveries at their own times, cut short and begun again, gives the configs, shadows and nodes of the log itself. |
| `Ingestor.RedeliveredLogsAgree` | app/mqtt/router.py:71-106 | The same for the whole ingestor, with messages of every kind in the log. |
| `Ingestor.SeriesRepeat` | app/mqtt/router.py:174-231 | A message that comes again stores its rows again; it leaves the table alone exactly if it has no name, time and fitting value (simple), or no such record before the first entry that raises (bulk). |
| `Ingestor.BrightnessRepeats` | app/mqtt/router.py:208-231 | For one, a brightness sent by a light is stored twice when it is redelivered. |
| `Ingestor.RedeliveredSeriesIff` | app/mqtt/router.py:174-231 | Every at-least-once delivery leaves the time series of the log itself, if and only if no message of the log stores a row. |
| `Ingestor.RedeliveredReportsIff` | app/mqtt/router.py:109-166 | Every at-least-once delivery leaves the challenges, mappings and all other ownership rows of the log itself, if and only if no report in it, when first handled, is for an unknown node and answers one challenge that is still in time. |
| `Ingestor.LateNodeMaps` | app/mqtt/router.py:109-166 | For one, a report that comes before its node's config is lost, but maps the user when it is redelivered after it. |
| `Ingestor.ReportCountsOnce` | app/mqtt/router.py:109-166 | A mapping report for a known node that is repeated at once, at whatever time, counts once. |
| `Ingestor.UpsertNodeConfig` | app/services/node.py:20-35 | The config row is replaced by the payload and its version, or nothing changes when the version column refuses it. |
| `Ingestor.UpsertParamsShadow` | app/services/node.py:49-62 | The shadow row is created from the params, or merged with them. |
| `Ingestor.CreateIfAbsent` | app/mqtt/router.py:26-36 | The node row exists afterwards, unless its id does not fit the column. |
| `Ingestor.HandleConfig` | app/mqtt/router.py:95-99 | The handler refines the config step: a refused config keeps the node row that was committed before it. |
| `Ingestor.HandleParamsLocal` | app/mqtt/router.py:102-106 | The handler refines the params step. |
| `Ingestor.DispatchMessage` | app/mqtt/router.py:71-87 | Dispatch over the database refines the log machine, whose every topic is described by the lemmas above. |
| `Ownership.AccessListAgrees` | app/services/access.py:19-62 | The access list has no duplicates, contains a node exactly when has_access holds, and lists owned nodes before share-only ones. |
| `Ownership.RunKeepsInv` | app/services/sharing.py:31-153 | Every run keeps the invariant: unique names, mappings and shares, sound foreign keys, a completed challenge behind each mapping and request, an accepted request behind each share. |
| `Ownership.AccessProvenance` | app/services/access.py:19-38 | In every reachable state access goes back to a completed challenge, the user's own or that of the grantor of a share accepted under the user's name. |
| `Ownership.TwoPathsApart` | app/services/mapping.py:35-140 | A step leaves settled challenges alone; it completes one only through the path its row is made for, by its own user or node, no later than its expiry, and then the mapping exists. |
| `Ownership.ChallengesSound` | app/services/mapping.py:35-92 | In every reachable state a challenge has exactly one of secret and challenge set, and a completion time, no later than its expiry, exactly when it is completed. |
| `Ownership.SettledForever` | app/services/mapping.py:95-140 | A completed or expired challenge never changes again in any run that does not delete its user. |
| `Ownership.InviteeSettles` | app/services/sharing.py:82-126 | Only the named invitee settles a waiting request, as accepted, declined or expired by the clock, and acceptance gives a share. |
| `Ownership.AnsweredForever` | app/services/sharing.py:82-126 | An accepted, declined or expired request never changes again in any run that does not delete its grantor. |
| `Ownership.RequestsAddOne` | app/services/mapping.py:35-92 | Either kind of mapping request adds exactly one row, or is refused without effect for an unknown user or a repeated id. |
| `Ownership.VerifyExact` | app/services/mapping.py:95-140 | A verification succeeds exactly for the user's own pending challenge, in time, with its text and for a known node; it completes that row, maps the user, and does nothing else. |
| `Ownership.InviteExact` | app/services/sharing.py:31-79 | An invitation succeeds exactly for a name and nodes that are all the caller's own; it adds one waiting request for each, for seven days, and nothing else; each refusal has its own error. |
| `Ownership.AnswerExact` | app/services/sharing.py:82-126 | An answer to a waiting request of the caller settles it in every case: lapsed when late, else accepted with its share or declined; any other answer changes nothing and has its own error. |
| `Ownership.UnmapSucceedsIff` | app/api/v1/routes/user_nodes.py:57-75 | Unmapping succeeds exactly if the caller is mapped, and leaves no mapping of the caller to the node. |
| `Ownership.StrangersDoNothing` | app/api/v1/deps/auth.py:40-60 | In the machine nothing is done for a caller who is unknown or not confirmed. |
| `Ownership.RevokeExact` | app/services/sharing.py:129-153 | After a revoke the invitee has a listed node only by owning it or through another grantor's share; no other access changes. |
| `Ownership.SharesOutliveUnmap` | app/api/v1/routes/user_nodes.py:57-75 | Unmapping ends the caller's own mapping and nobody else's access: shares outlive their grantor's mapping. |
| `Ownership.DeleteUserExact` | app/api/v1/routes/user.py:20-27 | Deleting a user ends that user's access and the shares the user granted, removes that user's challenges and requests, and changes nothing else. |
| `Ownership.FalsyIff` | app/mqtt/router.py:119-122 | The values that Python takes for false, which decide whether a secret or a node id counts as given. |
| `Ownership.ReportedIff` | app/mqtt/router.py:119-130 | A report counts with a secret exactly if secret_key is that text, not empty, and node_id is absent, false or the topic's node. |
| `Ownership.MismatchIsDropped` | app/mqtt/router.py:122-129 | A report that names another node than its topic changes nothing. |
| `Ownership.ReportedUserIgnored` | app/mqtt/router.py:109-166 | A report has the same effect whatever user it names. |
| `Ownership.ReportMapsAsker` | app/mqtt/router.py:119-166 | In terms of the payload's fields: a report confirms a user exactly if it carries, and does not contradict the topic in, the secret of the one pending challenge for the node, which is that user's and in time, and the commit succeeds; it maps nobody else. |
| `Ownership.NamesOneMapsAnother` | app/mqtt/router.py:109-166 | For one, a report that names one user maps another, who asked with the secret. |
| `Ownership.LegacyFlow` | app/mqtt/router.py:109-166 | A requested secret, reported by the device, is completed within the hour and expires after it; the mapping exists exactly in the first case, or if it did before. |
| `Ownership.ChallengeFlow` | app/services/mapping.py:75-140 | An initiated challenge is completed exactly by its own text within ten minutes; anything else changes nothing. |
| `Ownership.SharingFlow` | app/services/sharing.py:31-126 | Each answered request of an invitation gives the invitee that one node, exactly within seven days, and changes nobody else's access. |
| `Ownership.RunsCanStart` | app/services/mapping.py:35-140 | The machine is not empty: from nothing it reaches any accounts with distinct names and any node. |
| `Ownership.RunsCanMap` | app/services/mapping.py:35-140 | From any state two events map a confirmed user over either path. |
| `Ownership.RunsCanShare` | app/services/sharing.py:31-153 | From any state an invitation and its acceptance share a node; a revoke ends that, and a decline gives nothing. |
| `Ownership.RunsCanEnd` | app/api/v1/routes/user.py:20-27 | From any state unmapping ends the caller's ownership and deletion all of the caller's access. |
| `Ownership.VerifyMapping` | app/services/mapping.py:95-140 | The call refines the verify step, with its four refusals and the commit that may fail. |
| `Ownership.HandleUserMapping` | app/mqtt/router.py:109-166 | The handler refines the report step, which MismatchIsDropped and ReportMapsAsker characterise: malformed, silent, mismatched, ambiguous, expired and matching reports. |
| `Ownership.CreateRequest` | app/services/sharing.py:31-79 | Ownership of every node is checked first; then one waiting request is added for each node, or none. |
| `Ownership.AcceptOrDecline` | app/services/sharing.py:82-126 | The call refines the answer step, including the expiry that is committed before the refusal. |
| `Ownership.RevokeShare` | app/services/sharing.py:129-153 | The loop over the nodes removes exactly the shares granted by the caller to the named user for listed nodes. |
| `Claims.ClaimAccounting` | app/services/claim.py:51-203 | In every reachable state certificates map injectively to verified claims of the same node; each has cn = node_id = lowercased MAC and a node row; there are no more certificates than verified claims. |
| `Claims.VerifiedForever` | app/services/claim.py:80-203 | A verified claim never changes again; every certificate keeps its place and contents but for revocation, which is final; no node is lost. |
| `Claims.IssueExact` | app/services/claim.py:176-203 | A certificate is issued exactly for a request that signs with an unused serial; it adds the node row and one certificate in its name, and otherwise nothing. |
| `Claims.StartsExact` | app/services/claim.py:51-145 | A claim starts exactly with an unused id and, for a device, a provisioned MAC and an unused auth id; it adds one pending claim for the lowercased MAC with the configured lifetime. |
| `Claims.FailedCsrConsumes` | app/services/claim.py:80-203 | A proven self-claim whose certificate cannot be issued is used up: no certificate, no node, and every later call with its auth id is refused and changes nothing. |
| `Claims.FailedAssistedCsrConsumes` | app/services/claim.py:148-203 | The same for an assisted claim: it is used up, and is among the claims awaiting a user in no later state. |
| `Claims.SelfClaimFlow` | app/services/claim.py:51-119 | A provisioned device gets its certificate exactly when it answers in time with the HMAC of its challenge under its own key and the request signs. |
| `Claims.AwaitingAre` | app/services/claim.py:148-161 | A user waits for exactly the user's own unverified assisted claims. |
| `Claims.AssistedClaimFlow` | app/services/claim.py:125-203 | An assisted claim, end to end: it gives the certificate and node of the lowercased MAC exactly when verified within the lifetime and signed with an unused serial. |
| `Claims.AssistedIff` | app/services/claim.py:148-170 | An assisted claim succeeds exactly when it is the user's only pending one, in time, and signs with an unused serial. |
| `Claims.AssistedDeadlock` | app/services/claim.py:148-165 | Two pending assisted claims of one user stay pending in every later state, and every attempt to verify raises and changes nothing. |
| `Claims.ExpiredClaimBlocks` | app/services/claim.py:125-165 | An assisted claim left to expire is refused, stays pending, and deadlocks with the next one. |
| `Claims.IdentityAgreement` | app/api/v1/deps/mtls.py:20-47 | In every reachable state MQTT registration is accepted exactly when the mTLS lookup succeeds, the node is the one named, and "Node not registered" is unreachable. |
| `Claims.RegisterIff` | app/services/vmq_authz.py:36-57 | MQTT registration is open exactly to the backend and to a name with a certificate that is not revoked. |
| `Claims.LookupIff` | app/api/v1/deps/mtls.py:20-47 | In every reachable state the mTLS lookup answers the name itself exactly if it has a certificate that is not revoked, and says otherwise what is lacking. |
| `Claims.RevocationHolds` | app/services/vmq_authz.py:36-57 | Once the serials of all certificates of a name have been revoked, both paths refuse it in every later state, until a younger certificate is issued to it. |
| `Claims.RunsCanClaim` | app/services/claim.py:51-119 | From nothing, provisioning, starting and verifying make a device known to both paths. |
| `Claims.ClaimGivesIdentity` | app/services/vmq_authz.py:36-57 | A claim that is signed makes its node recognised by both paths. |
| `Claims.InitiateSelfClaim` | app/services/claim.py:51-77 | The call adds one pending claim for a provisioned MAC, or nothing. |
| `Claims.IssueCertificate` | app/services/claim.py:176-203 | Node row and certificate are added together, or neither. |
| `Claims.VerifySelfClaim` | app/services/claim.py:80-119 | The call refines the self-verify step: the verification is committed before the certificate. |
| `Claims.VerifyAssistedClaim` | app/services/claim.py:148-170 | The call refines the assisted-verify step: no row, several rows, expired, or one. |
| `Ota.ReadyImagesOnly` | app/services/ota.py:74-126 | Readiness gate: in every reachable state every job is of a ready image, rows have a job and a node, and there is one row for each job and node. |
| `Ota.ReadyIffConfirmed` | app/services/ota.py:40-90 | In every reachable state an image is there exactly if it was created, with its own key and version, and is ready exactly if it has itself been confirmed since. |
| `Ota.ConfirmExact` | app/services/ota.py:74-90 | Confirming makes one known image ready and leaves every other as it was. |
| `Ota.CreateJobExact` | app/services/ota.py:96-126 | A job is created exactly for a ready image, a new id and distinct known nodes: active, for its image, with one pending row for each node in order; refusals change nothing. |
| `Ota.FanOutExact` | app/services/ota.py:96-126 | A job is created exactly for a ready image and distinct known nodes; it adds one row to the queue of each of them and changes no other queue. |
| `Ota.OpenRowsAre` | app/services/ota.py:131-153 | The rows a device may be served are its own that are pending or in progress, of an active job with an image. |
| `Ota.UpdateExact` | app/services/ota.py:169-193 | A report succeeds exactly for an existing row of the node, sets its status in place and changes nothing else. |
| `Ota.NewJobTakesItsTurn` | app/services/ota.py:96-166 | What could be served next still can after a new job exactly if it is not created later than the new row of its node; the new row can be next exactly if no open row is older. |
| `Ota.DrainServesAll` | app/services/ota.py:131-193 | In any drain the rows served and the rows left make up the queue, so "wait" comes after exactly as many payloads as there were open rows; other nodes' rows are untouched. |
| `Ota.DrainIsOrdered` | app/services/ota.py:131-193 | A drain serves each job once and never one while a strictly older row is open. |
| `Ota.ReportCloses` | app/services/ota.py:169-193 | A final status takes exactly its own row out of the queue. |
| `Ota.ProgressKeepsPlace` | app/services/ota.py:169-193 | A status that is not final keeps the row next in the queue. |
| `Ota.StatusAnswersIff` | app/services/ota.py:199-215 | In every reachable state the status query answers if and only if at most one job was ever created for the node, and says none exactly when there was none. |
| `Ota.StatusIsLastReport` | app/services/ota.py:169-215 | With exactly one job it answers that job's row, with the last status reported for it. |
| `Ota.RowShowsLastReport` | app/services/ota.py:169-193 | In every reachable state the row of each job and node shows the last status reported for it, or pending. |
| `Ota.StatusQueryLost` | app/services/ota.py:199-215 | Once two jobs have been created for a node its status query raises in every later state. |
| `Ota.TwoJobsRaise` | app/services/ota.py:199-215 | For one, after a node, an image and two jobs it raises. |
| `Ota.CreateOtaJob` | app/services/ota.py:96-126 | The loop's rows and the job are committed together, or nothing. |
| `Ota.FetchPending` | app/services/ota.py:131-166 | The row returned is open with none strictly older, with the image of its job, which is ready; none is returned exactly when no row is open. |
| `Ota.Drain` | app/services/ota.py:131-193 | A device that fetches and reports any final statuses until it is told to wait ends; what it was served is a drain as in DrainServesAll and DrainIsOrdered, with one payload for each row that was open. |
| `Groups.CascadeIsSubtree` | app/models/sharing.py:60-65 | The rounds of the cascade remove exactly what lies under the doomed groups. |
| `Groups.ForestForever` | app/services/groups.py:21-60 | In every reachable state no group is its own ancestor, no parent dangles, every climb ends at a root, and all ancestors share the owner. |
| `Groups.DeleteExact` | app/services/groups.py:90-99 | A deletion succeeds exactly for the caller's own group and removes exactly its descendants and their memberships, all of them the caller's; otherwise it changes nothing. |
| `Groups.DeleteUserExact` | app/api/v1/routes/user.py:20-27 | Deleting a user removes the user, exactly the user's groups and their memberships, cascade and all. |
| `Groups.CreateExact` | app/services/groups.py:21-60 | A creation succeeds exactly for a name, an own parent if any, and distinct known nodes, and adds one group with exactly its nodes; a refused one changes nothing. |
| `Groups.RunsCanNest` | app/services/groups.py:21-99 | From nothing a user can nest a group in another; deleting the outer one, or the user, ends both. |
| `Groups.CreateNodeGroup` | app/services/groups.py:21-60 | Group and members are committed together, or nothing. |
| `Groups.CascadeFrom` | app/models/sharing.py:60-65 | Looking for children until there are none computes the cascade. |
| `Groups.DeleteNodeGroup` | app/services/groups.py:90-99 | The call refines the delete step. |
| `Tokens.RefreshIff` | app/services/auth.py:100-133 | Over any trace a refresh succeeds exactly when a login minted the token, its user has neither logged out nor been deleted since, and the time is before the floored expiry. |
| `Tokens.ActiveIffLive` | app/services/auth.py:136-152 | Over any trace a token's row is active exactly when a login minted it and its user's sessions have not ended since. |
| `Tokens.FlooredExpiry` | app/core/security.py:41-79 | The token's own expiry check implies the check on the stored row. |
| `Tokens.MintedLifetime` | app/core/security.py:41-66 | A minted token names the confirmed user of the login and lives for the configured whole seconds from the second of issue. |
| `Tokens.SignUpFlow` | app/services/auth.py:41-80 | A new account is unconfirmed, and becomes confirmed exactly by its code within 24 hours. |
| `Tokens.LoginIff` | app/services/auth.py:83-97 | A password login succeeds exactly for a confirmed user of the name whose stored hash the password verifies against (given a lifetime and an unused id), and then stores exactly one row for that user. |
| `Tokens.ChangeExact` | app/services/auth.py:155-159 | A change needs the current password and replaces that user's hash, and nothing else. |
| `Tokens.ResetFlow` | app/services/auth.py:162-191 | A reset needs the code last sent to the user, within the hour, and replaces the hash. |
| `Tokens.LoginIffLastPassword` | app/services/auth.py:41-191 | Over any trace a login succeeds exactly for a confirmed user of the name with a password that verifies against the hash of the one last set by sign-up, change or reset. |
| `Tokens.SignUpIff` | app/services/auth.py:41-61 | A sign-up succeeds exactly for a new name (and id), and is otherwise without effect. |
| `Tokens.SignUpThenLogin` | app/services/auth.py:41-97 | After sign-up nobody logs in; after confirmation exactly a password that verifies against the hash of the chosen one does. |
| `Tokens.RunsCanRefresh` | app/services/auth.py:41-133 | From nothing, sign-up, confirmation and login give a token that refreshes at once. |
| `Tokens.RunsCanSetPasswords` | app/services/auth.py:155-191 | In any state a confirmed user can change the password, and a reset code sets it. |
| `Tokens.CallsEvolveAccounts` | app/services/auth.py:41-191 | Every call but a deletion keeps all users, their names and the uniqueness of names. |
| `Tokens.ConfirmSignUp` | app/services/auth.py:64-80 | The call refines the confirm step. |
| `Tokens.LoginPassword` | app/services/auth.py:83-97 | The call refines the login step, which LoginIff characterises: it stores one refresh row, or nothing. |
| `Tokens.LoginRefresh` | app/services/auth.py:100-133 | The decision is exactly the refresh predicate, every refusal is the same, and success means an unrevoked, unexpired row and a confirmed user. |
| `Tokens.LogOutUser` | app/services/auth.py:136-152 | The loop revokes exactly the user's unrevoked rows. |
| `Users.DeleteCurrentUser` | app/api/v1/routes/user.py:20-27 | One commit whose cascade is, for ownership, groups and tokens, the deletion each of them expects. |
| `TimeSeries.Coerce` | app/services/tsdata.py:35-51 | Exactly the column of the data type is filled, with the converted value; none when the conversion raises. |
| `TimeSeries.InsertTsdata` | app/services/tsdata.py:63-98 | All points are written, or none. |
| `TimeSeries.ColumnRoundTrip` | app/services/tsdata.py:35-60 | The column a query picks for the data type reads back exactly the converted value; the other three hold nothing. |
| `TimeSeries.PointsAreWellTimed` | app/mqtt/router.py:190-196 | The points of an entry are those of its well-timed records, one for one and in order. |
| `TimeSeries.EntryStoresAll` | app/mqtt/router.py:183-205 | Within an entry every well-timed record of a well-named entry is stored, or nothing. |
| `TimeSeries.SimpleStoresIff` | app/mqtt/router.py:208-231 | In terms of the message's fields: a simple message stores a row exactly if its name, time, type and value make it, and never more than one. |
| `TimeSeries.RaisesIff` | app/mqtt/router.py:183-205 | In terms of its fields, exactly when an entry raises: no object, a name that cannot be searched or cut, records that cannot be looped over, a time out of range, or a well-timed record without a row. |
| `TimeSeries.BulkStoresIff` | app/mqtt/router.py:174-205 | In terms of the payload: a row is stored exactly if it is what some record of an entry before the first that raises makes of itself. |
| `TimeSeries.BulkStoresExactly` | app/mqtt/router.py:174-205 | A row is stored by a bulk message exactly if it is that of a well-timed record of an entry before the first that raises. |
| `TimeSeries.BulkStoresInOrder` | app/mqtt/router.py:174-205 | The table grows by the rows of these entries, one entry after the other, once each. |
| `TimeSeries.BulkIsSimples` | app/mqtt/router.py:174-231 | When nothing raises, a bulk message leaves the same table as its records sent as simple messages. |
| `TimeSeries.HandleTsdata` | app/mqtt/router.py:174-205 | The nested loops of the handler append exactly the bulk rows. |
| `TimeSeries.HandleSimpleTsdata` | app/mqtt/router.py:208-231 | The handler appends the row of the message, or nothing. |
| `SeriesQuery.IntervalRoundTrip` | app/services/tsdata.py:21-32 | A printed interval reads back as its length, whatever blanks surround it, up to the longest timedelta. |
| `SeriesQuery.IntervalIff` | app/services/tsdata.py:18-25 | Exactly digits and one of the letters s, m, h, d, between blanks, are read as an interval. |
| `SeriesQuery.UnitsAre` | app/services/tsdata.py:27-32 | The four units are 1, 60, 3600 and 86400 seconds. |
| `SeriesQuery.LatestTypeIs` | app/services/tsdata.py:116-127 | The type of a series is that of a latest row of it, wherever in the table; of an empty one, int. |
| `SeriesQuery.RawFails` | app/services/tsdata.py:112-165 | The raw query fails exactly for a name without a dot or a negative limit. |
| `SeriesQuery.RawQueryIs` | app/services/tsdata.py:101-165 | The raw answer has one point, up to the limit and in time order, for exactly the rows of the table with the node, device and param named and a time in the window, each as often as it is there; all its times are in the window. |
| `SeriesQuery.RawQueryExact` | app/services/tsdata.py:101-165 | For a single-type series that is the stored value of every such row. |
| `SeriesQuery.InsertThenQuery` | app/services/tsdata.py:63-165 | The points inserted into a new series come back under its name with their converted values, in time order. |
| `SeriesQuery.BucketsAreMonotone` | app/services/tsdata.py:146-157 | Buckets of any positive width keep the order of time, and a point lies in its bucket. |
| `SeriesQuery.ExactlyOneBin` | app/services/tsdata.py:146-157 | Every row of the window falls in exactly one bucket. |
| `SeriesQuery.AggregateRefinesRaw` | app/services/tsdata.py:139-159 | Sums, minima and maxima of buckets recombine to those of the raw rows they cover, a first part of the window even under LIMIT. |
| `SeriesQuery.AverageTimesCount` | app/services/tsdata.py:139-159 | An average times the count of its bucket is the bucket's sum. |
| `SeriesQuery.ExtremesAre` | app/services/tsdata.py:139-150 | A minimum or maximum is one of the values with none beyond it, and missing only when all are. |
| `SeriesQuery.SumGrows` | app/services/tsdata.py:139-150 | A sum grows by each value that is not missing, from none. |
| `SeriesQuery.CountIs` | app/services/tsdata.py:139-150 | The count of an average is the number of values that are not missing. |
| `SeriesQuery.NumericIs` | app/services/tsdata.py:54-60 | Only the integer and float columns give numbers to aggregate, unchanged. |
| `SeriesQuery.BucketQueryExact` | app/services/tsdata.py:101-159 | The answer has ascending keys and recombines to the aggregate of the first rows of the window, all of them when the limit allows. |
| `SeriesQuery.BucketQueryIs` | app/services/tsdata.py:139-159 | Each answered bucket, averages included, holds the aggregate of exactly the rows of the series and window with a time in it; buckets ascend without overlap, and none is left out before the last one or, below the limit, at all. |
| `SeriesQuery.BucketsAreAligned` | app/services/tsdata.py:146-157 | Each answered bucket starts a whole number of widths from the origin. |
| `SeriesQuery.BucketQueryFails` | app/services/tsdata.py:139-159 | The aggregate query raises exactly for a negative limit, any aggregate of booleans, an average or sum of texts, or a row in the window that meets a zero width or holds a text. |
| `SeriesQuery.AggregatesAre` | app/services/tsdata.py:141-143 | The four aggregates have their names, in any mixture of cases, and there are no others. |
| `SeriesQuery.RawWithoutBoth` | app/services/tsdata.py:139-165 | Without an aggregate or an interval the call is the raw query. |
| `SeriesQuery.BucketsWithBoth` | app/services/tsdata.py:101-159 | With both it is the aggregate query for the seconds and the aggregate named; a missing dot, an unreadable interval and an unknown aggregate are refused, and one too wide raises. |
| `SeriesQuery.QueryRecombines` | app/services/tsdata.py:101-165 | From the request's strings: a printed interval and the name of a sum, minimum or maximum give buckets of that width whose values recombine to the aggregate of what the raw query answers for the covered rows; it raises exactly for booleans, sums of texts, and a text met by the conversion to a number. |
| `SeriesQuery.CoarseningExact` | app/services/tsdata.py:146-157 | A bucket of width k*w holds exactly the rows, and has the aggregate, of its buckets of width w. |
| `SeriesQuery.RoomForK` | app/services/tsdata.py:146-157 | A bucket of width k*w is made of k buckets of width w. |

## Left out

- Interleavings inside a single call: the code takes no locks, and a step here is atomic.
- Password hashing, HMAC, JWT encoding and X.509 building: parameters. A refresh token counts as signed exactly when the server minted it.
- The platform, attempts, operation, role and metadata columns: stored but never part of a decision.
- `last_login_at`, `mark_online`, `mark_offline`, custom data, automations: single assignments with easy properties.
- Access and id tokens beyond their kind, and the routes' request plumbing and one-branch validation.
- Password change and reset are steps of the token traces but have no method of their own.
- Listing groups, mapping status, list of shares and image creation: plain reads and inserts.
- Column widths outside the ingestor and the time-series table, and values that JSONB refuses, such as a NUL character.
- JSON numbers that are not finite, and the rounding and overflow of floats: numbers are integers or reals.
- Non-ASCII digits and blanks in intervals, and MIN or MAX over texts that happen to be numeric: a text in the window is an error here, even in a bucket past the limit, which the engine need not evaluate.
- User calls between a delivery and its redelivery: `RedeliveredReportsIff` is about logs of messages.
- The order of rows with equal times: the raw query keeps table order, the job queue leaves it open.
- FlooredExpiry: stated for clocks after 1970, where rounding towards zero is rounding down.
- Ownership.RevokeShare: requires user names to be unique, which the table's constraint ensures.
- Groups.CascadeFrom: models the database engine's cascade, which the code only asks for.
