# IntelliDesk core logic in Dafny

This project models the deterministic core of the IntelliDesk services and
proves properties of it. The five services (RAG, employee, user,
gateway, tool) are otherwise thin layers over frameworks and cloud clients.
Each core source file becomes one Dafny module:

| module | file | models |
|---|---|---|
| `DocumentIngestion`, `DocumentIngestionProperties` | document_service.dfy, document_properties.dfy | `uploadDocument`: filename and extension validation, parser dispatch, the stored name, the embedding loop, progress events and their percentages, and failure handling that survives a failing progress topic |
| `RagAnswering` | rag_service.dfy | `answerQuestion` and `buildPrompt` |
| `EmployeeEntity`, `EmployeeRequests`, `EmployeeResponses`, `EmployeeRepository`, `EmployeeRecords` | employee_*.dfy | the `employees` table: the entity and its enums, the request constraints, the two response projections, the repository queries as filters, and the service operations over a table keyed by id |
| `UserRegistration` | auth_service.dfy | `register` and `mapToUserDto` |
| `GatewayAuthentication` | gateway_filter.dfy | the gateway's pass/reject decision |
| `EmployeeAuthentication` | employee_security.dfy | the employee service's bearer-token filter: null roles, role-to-authority normalisation, request attributes |
| `SqlTool` | sql_tool.dfy | the SELECT guard, the JDBC URL and the row-reading loop |
| `Wrappers`, `JavaText`, `JavaInt` | wrappers.dfy, java_text.dfy, java_int.dfy | `Option`/`Result`, the `java.lang.String` operations the core uses, and 32-bit `int` arithmetic |

Code that updates state step by step is written as classes with methods:
- `DocumentService` keeps an embedding store, an upload directory and the events sent.
- `EmployeeService` keeps the table and the next identity value.
- `AuthService` keeps users and roles.
- `JwtFilter` keeps request attributes, the security context and a chain-call count.
- `SqlTool.ExecuteQuery` uses `while` loops.

Each method is proved against a pure function of the old state, for example `Ingest`, `Authenticate` or `Execute`. The promised properties are then proved as lemmas about those functions. Pure code (queries, projections, validators, the gateway decision) is written as functions and lemmas.

The outside collaborators are function parameters whose `Err` results stand for thrown exceptions:
- the parsers, splitter and embedding model;
- the store and file system;
- the progress topic and the chat model;
- the password encoder and token provider;
- the JWT utilities;
- the JDBC driver.

The random UUID, the clock and "today" are parameters as well.

Two behaviours of the code that a reader might not expect are modelled as written:
- "txt" passes `isAllowedExtension` (DocumentService.java:191), but `parseDocument` has no case for it (:170-179). A `.txt` upload is therefore saved and then fails with "Unsupported file type: txt" (`TxtUploadFails`).
- A disallowed extension is refused with `IllegalArgumentException("File type not allowed: " + ext)` (:63), after a failed event with the same text (:62).

## Model

| member | source | states |
|---|---|---|
| JavaText.Trim | tool-service/src/main/java/com/intellidesk/tool/service/SqlToolService.java:67 | `trim()`: the slice of the input from the first to the last character above ' ', so no character ≤ ' ' at either end; empty exactly when every character is ≤ ' ' |
| JavaText.ContainsTransitive | employee-service/src/main/java/com/intellidesk/employee/repository/EmployeeRepository.java:26-31 | an occurrence of an occurrence is an occurrence (the basis of `LongerKeywordNarrows`) |
| JavaText.LowerCanonical | employee-service/src/main/java/com/intellidesk/employee/repository/EmployeeRepository.java:26-31 | lower-casing is idempotent and ignores a prior upper-casing |
| JavaText.JoinLength | rag-service/src/main/java/com/intellidesk/rag/service/RagService.java:47-49 | `Collectors.joining` length: the parts' lengths plus one separator between each pair |
| JavaText.LastIndexOf | rag-service/src/main/java/com/intellidesk/rag/service/DocumentService.java:186 | `lastIndexOf`: -1 or an index holding the character, with no later occurrence |
| JavaText.JoinPartAt | rag-service/src/main/java/com/intellidesk/rag/service/RagService.java:47-49 | the k-th part sits in the joined string at the offset of the parts and separators before it |
| JavaText.JoinSeparatorAt | rag-service/src/main/java/com/intellidesk/rag/service/RagService.java:47-49 | between consecutive parts the joined string holds exactly the separator |
| JavaText.IntToString | employee-service/src/main/java/com/intellidesk/employee/service/EmployeeService.java:87 | decimal rendering of a `Long`: non-empty, a leading '-' exactly for negatives, digits otherwise, and reading it back with `DecimalValue` gives the number |
| JavaText.NatToString | rag-service/src/main/java/com/intellidesk/rag/service/DocumentService.java:98-99 | the decimal digits of a count: non-empty, digits only, and `DigitsValue` of them is the count |
| JavaText.IntToStringInjective | employee-service/src/main/java/com/intellidesk/employee/service/EmployeeService.java:87 | distinct ids are rendered as distinct strings, so the not-found message names the id |
| JavaInt.Div | rag-service/src/main/java/com/intellidesk/rag/service/DocumentService.java:108 | Java `/` truncates toward zero: below the exact quotient for a non-negative dividend, above it for a negative one, by less than one |
| JavaInt.Wrap | rag-service/src/main/java/com/intellidesk/rag/service/DocumentService.java:108 | two's-complement wrap-around: in `int` range, congruent to the exact value modulo 2^32, and the identity on values already in range |
| DocumentIngestion.FailureTexts | rag-service/src/main/java/com/intellidesk/rag/service/DocumentService.java:53-64 | a rejection's failed event carries the exception message; a later failure's carries "Error: " + message |
| DocumentIngestion.FileExtensionSplits | rag-service/src/main/java/com/intellidesk/rag/service/DocumentService.java:185-188 | the extension contains no '.', is "" without a '.', and the name is some base + "." + extension otherwise |
| DocumentIngestion.FileExtension | rag-service/src/main/java/com/intellidesk/rag/service/DocumentService.java:185-188 | `getFileExtension` as a definition: the text after the last '.', or ""; FileExtensionSplits states its properties |
| DocumentIngestion.IsAllowedExtension | rag-service/src/main/java/com/intellidesk/rag/service/DocumentService.java:190-192 | `isAllowedExtension` as a definition: the lower-cased extension is pdf, doc, docx or txt; used by RejectionCases and TxtIsAllowedButUnparsable |
| DocumentIngestion.EmptyExtensionRejected | rag-service/src/main/java/com/intellidesk/rag/service/DocumentService.java:190-192 | an empty extension is not allowed |
| DocumentIngestion.SelectParserCases | rag-service/src/main/java/com/intellidesk/rag/service/DocumentService.java:167-183 | PDFBox exactly for pdf, POI exactly for doc/docx (any case); otherwise "Unsupported file type" for the extension |
| DocumentIngestion.SelectParser | rag-service/src/main/java/com/intellidesk/rag/service/DocumentService.java:170-180 | the `switch` of `parseDocument` as a definition; SelectParserCases states its cases |
| DocumentIngestion.ParseDocument | rag-service/src/main/java/com/intellidesk/rag/service/DocumentService.java:167-183 | `parseDocument` as a definition: the selected parser's text, its failure, or the unsupported-type error; used by TxtUploadFails and ParseOnlyAfterSave |
| DocumentIngestion.TxtIsAllowedButUnparsable | rag-service/src/main/java/com/intellidesk/rag/service/DocumentService.java:167-192 | "txt" passes the allow-list but has no parser |
| DocumentIngestion.StoredFilenamesDistinct | rag-service/src/main/java/com/intellidesk/rag/service/DocumentService.java:76 | ids of equal length with a different id or name never give the same stored name |
| DocumentIngestion.StoredFilename | rag-service/src/main/java/com/intellidesk/rag/service/DocumentService.java:76 | the stored name `documentId + "_" + filename` as a definition; StoredFilenamesDistinct and SaveComesFirst state its use |
| DocumentIngestion.EmbeddingPercentRange | rag-service/src/main/java/com/intellidesk/rag/service/DocumentService.java:108 | the percentage lies in 30..100 and is 100 exactly at the last segment |
| DocumentIngestion.EmbeddingPercentMonotone | rag-service/src/main/java/com/intellidesk/rag/service/DocumentService.java:108 | the percentage never goes down as segments are processed |
| DocumentIngestion.EmbeddingPercent | rag-service/src/main/java/com/intellidesk/rag/service/DocumentService.java:108 | the loop's percentage in exact arithmetic, as a definition; EmbeddingPercentRange, EmbeddingPercentMonotone and JavaPercentAgrees state its properties |
| DocumentIngestion.ShouldEmit | rag-service/src/main/java/com/intellidesk/rag/service/DocumentService.java:111 | the reporting test as a definition; ReportEventsStep and ReportPointsComplete state its use |
| DocumentIngestion.Step | rag-service/src/main/java/com/intellidesk/rag/service/DocumentService.java:102-115 | one loop body as a definition: embed, add, report when due, or the exception; EmbedSegment is proved against it |
| DocumentIngestion.EmbedFrom | rag-service/src/main/java/com/intellidesk/rag/service/DocumentService.java:101-123 | the embedding loop as a definition; EmbedFromAdded, EmbedFromEvents and EmbeddedFromIndex state its properties |
| DocumentIngestion.Rejection | rag-service/src/main/java/com/intellidesk/rag/service/DocumentService.java:53-64 | the validation before the `try` as a definition; RejectionCases and RejectedUpload state its properties |
| DocumentIngestion.TextRun | rag-service/src/main/java/com/intellidesk/rag/service/DocumentService.java:88-143 | splitting, embedding and completion as a definition; TextRunSucceeds and TextRunFails state its properties |
| DocumentIngestion.SaveRun | rag-service/src/main/java/com/intellidesk/rag/service/DocumentService.java:66-143 | the `try` block and its `catch` as a definition; SaveRunSucceeds, SaveRunFails and SaveComesFirst state its properties |
| DocumentIngestion.ParsedRun | rag-service/src/main/java/com/intellidesk/rag/service/DocumentService.java:83-143 | the `try` block once the file is saved, as a definition; ParsedRunFails states its failures and SaveRun is built from it |
| DocumentIngestion.Ingest | rag-service/src/main/java/com/intellidesk/rag/service/DocumentService.java:43-144 | `uploadDocument` as a definition; SuccessfulUpload, FailedUpload, RejectedUpload and SuccessfulUploadProgress state its properties, and UploadDocument is proved against it |
| DocumentIngestion.JavaEmbeddingPercent | rag-service/src/main/java/com/intellidesk/rag/service/DocumentService.java:108 | the expression as Java's 32-bit `int` evaluates it, always in `int` range |
| DocumentIngestion.JavaPercentOverflows | rag-service/src/main/java/com/intellidesk/rag/service/DocumentService.java:108 | with 30,678,338 segments the final event reports -39% |
| DocumentIngestion.JavaPercentAgrees | rag-service/src/main/java/com/intellidesk/rag/service/DocumentService.java:108 | while `processed*70` fits in an `int`, Java's value equals the intended one |
| DocumentIngestion.DeliveredAppend | rag-service/src/main/java/com/intellidesk/rag/service/DocumentService.java:146-165 | the topic receives the accepted events of each part of a run, in order |
| DocumentIngestion.Delivered | rag-service/src/main/java/com/intellidesk/rag/service/DocumentService.java:146-165 | an event is received exactly when it was sent and accepted; when every event is accepted, all are received in the order sent |
| DocumentIngestion.DocumentService.SendProgress | rag-service/src/main/java/com/intellidesk/rag/service/DocumentService.java:146-165 | every event is handed over; the topic receives it only if it accepts it; nothing else changes and nothing is thrown |
| DocumentIngestion.DocumentService.Published | rag-service/src/main/java/com/intellidesk/rag/service/DocumentService.java:146-165 | the events the topic has received: exactly the sent events it accepted, no more of them than were sent |
| DocumentIngestion.DocumentService.UploadDocument | rag-service/src/main/java/com/intellidesk/rag/service/DocumentService.java:43-144 | the store, directory, events and result are exactly those of `Ingest` on the old state |
| DocumentIngestion.DocumentService.SaveAndProcess | rag-service/src/main/java/com/intellidesk/rag/service/DocumentService.java:66-143 | the `try` block is that of `SaveRun` |
| DocumentIngestion.DocumentService.ParseAndProcess | rag-service/src/main/java/com/intellidesk/rag/service/DocumentService.java:83-143 | from the parsing event on, the result, new store and sent events are those of `ParsedRun`, and no file is written |
| DocumentIngestion.DocumentService.SplitAndEmbed | rag-service/src/main/java/com/intellidesk/rag/service/DocumentService.java:88-143 | splitting to completion is that of `TextRun` |
| DocumentIngestion.DocumentService.EmbedSegments | rag-service/src/main/java/com/intellidesk/rag/service/DocumentService.java:101-123 | the `for` loop is that of `EmbedFrom`: entries appended in order, events when due, stop at the first exception |
| DocumentIngestion.DocumentService.EmbedSegment | rag-service/src/main/java/com/intellidesk/rag/service/DocumentService.java:102-115 | one loop body: embed, add, count, report when due |
| DocumentIngestionProperties.ReportPoints | rag-service/src/main/java/com/intellidesk/rag/service/DocumentService.java:111 | the counts at which the loop reports, increasing, each due |
| DocumentIngestionProperties.ReportPointsComplete | rag-service/src/main/java/com/intellidesk/rag/service/DocumentService.java:111 | no due count is missed |
| DocumentIngestionProperties.SegmentEventsPercents | rag-service/src/main/java/com/intellidesk/rag/service/DocumentService.java:108-115 | loop events are `embedding` events at 30..100%, never decreasing |
| DocumentIngestionProperties.SegmentEvents | rag-service/src/main/java/com/intellidesk/rag/service/DocumentService.java:108-115 | one `embedding` event per report point, in order |
| DocumentIngestionProperties.ReportEventsStep | rag-service/src/main/java/com/intellidesk/rag/service/DocumentService.java:105-115 | one more segment adds its event exactly when `processed % 10 == 0` or it is the last |
| DocumentIngestionProperties.EmbeddedFromIndex | rag-service/src/main/java/com/intellidesk/rag/service/DocumentService.java:102-105 | entry k is segment start+k with its embedding, each accepted by the store |
| DocumentIngestionProperties.EmbedFromAdded | rag-service/src/main/java/com/intellidesk/rag/service/DocumentService.java:101-123 | the loop adds each segment once, in order; an exception stops it with the entries so far kept |
| DocumentIngestionProperties.EmbedFromEvents | rag-service/src/main/java/com/intellidesk/rag/service/DocumentService.java:101-123 | the loop's events are those due for the segments it got through |
| DocumentIngestionProperties.RejectionCases | rag-service/src/main/java/com/intellidesk/rag/service/DocumentService.java:53-64 | a rejection happens exactly for a null or empty name or a disallowed extension, and is an IllegalArgumentException |
| DocumentIngestionProperties.RejectedUpload | rag-service/src/main/java/com/intellidesk/rag/service/DocumentService.java:51-64 | a rejected upload sends started then failed, both at 0%, throws, and saves and adds nothing |
| DocumentIngestionProperties.SaveComesFirst | rag-service/src/main/java/com/intellidesk/rag/service/DocumentService.java:66-85 | after validation the file is saved as `documentId_filename` before parsing; a failed save ends with one failed event |
| DocumentIngestionProperties.ParseOnlyAfterSave | rag-service/src/main/java/com/intellidesk/rag/service/DocumentService.java:76-85 | when the save fails, the parser's result is irrelevant |
| DocumentIngestionProperties.TxtUploadFails | rag-service/src/main/java/com/intellidesk/rag/service/DocumentService.java:167-183 | a .txt upload is saved, then fails in parsing with IllegalArgumentException, adding nothing |
| DocumentIngestionProperties.TextRunSucceeds | rag-service/src/main/java/com/intellidesk/rag/service/DocumentService.java:88-137 | success means every segment was embedded and added; the events are in closed form |
| DocumentIngestionProperties.TextRunFails | rag-service/src/main/java/com/intellidesk/rag/service/DocumentService.java:101-143 | a failure while embedding keeps the entries added before it and ends with the only failed event |
| DocumentIngestionProperties.EmbedEventsNotFailed | rag-service/src/main/java/com/intellidesk/rag/service/DocumentService.java:101-123 | every event the embedding loop sends is an embedding progress event |
| DocumentIngestionProperties.SaveRunSucceeds | rag-service/src/main/java/com/intellidesk/rag/service/DocumentService.java:66-137 | success means the save and the parse succeeded; saving and parsing events precede the text run |
| DocumentIngestionProperties.SaveRunFails | rag-service/src/main/java/com/intellidesk/rag/service/DocumentService.java:66-143 | a failure after validation ends with exactly one failed event |
| DocumentIngestionProperties.ParsedRunFails | rag-service/src/main/java/com/intellidesk/rag/service/DocumentService.java:83-143 | after saving, a failure starts with the parsing event and ends with exactly one failed event |
| DocumentIngestionProperties.IngestAccepted | rag-service/src/main/java/com/intellidesk/rag/service/DocumentService.java:51-143 | a validated upload is the started event followed by the `try` block |
| DocumentIngestionProperties.SuccessfulUpload | rag-service/src/main/java/com/intellidesk/rag/service/DocumentService.java:43-137 | a successful upload saved the file, added segment k with its embedding at position k for every k, returns n segments and sent the full event sequence |
| DocumentIngestionProperties.IngestSucceeds | rag-service/src/main/java/com/intellidesk/rag/service/DocumentService.java:43-137 | a successful upload passed validation, saved and parsed the file, and is then exactly the text's successful run after the started, saving and parsing events |
| DocumentIngestionProperties.SuccessfulUploadStore | rag-service/src/main/java/com/intellidesk/rag/service/DocumentService.java:66-137 | a successful upload saved the file and added segment k with its embedding at position k, one entry per segment |
| DocumentIngestionProperties.SuccessfulUploadEvents | rag-service/src/main/java/com/intellidesk/rag/service/DocumentService.java:43-137 | the events of a successful upload in closed form: started, saving, parsing, splitting, embedding start, the due progress events, completed |
| DocumentIngestionProperties.SuccessfulUploadProgress | rag-service/src/main/java/com/intellidesk/rag/service/DocumentService.java:51-128 | a successful upload's percentages never go down and it ends with completed at (n, n, 100) |
| DocumentIngestionProperties.PhaseEventsPercents | rag-service/src/main/java/com/intellidesk/rag/service/DocumentService.java:51-98 | the events before the loop report 0, 0, 10, 20, 30 percent |
| DocumentIngestionProperties.FailedUpload | rag-service/src/main/java/com/intellidesk/rag/service/DocumentService.java:138-143 | any failure after validation ends with failed at (0, 0, 0) and "Error: " + message, the only failed event |
| DocumentIngestionProperties.EmptyDocument | rag-service/src/main/java/com/intellidesk/rag/service/DocumentService.java:98-128 | no segments: no loop event, no division, completed at (0, 0, 100) |
| DocumentIngestionProperties.DeliveryDoesNotAffectUpload | rag-service/src/main/java/com/intellidesk/rag/service/DocumentService.java:146-165 | whether the topic accepts events changes nothing else about the upload |
| DocumentIngestionProperties.EmbedFromIgnoresDelivery | rag-service/src/main/java/com/intellidesk/rag/service/DocumentService.java:146-165 | the embedding loop's store and events do not depend on whether the topic accepts |
| RagAnswering.MaxResults | rag-service/src/main/java/com/intellidesk/rag/service/RagService.java:29 | 5 when absent, the given value otherwise |
| RagAnswering.Retrieved | rag-service/src/main/java/com/intellidesk/rag/service/RagService.java:32-36 | the store's matches for the embedded question as a definition; QuestionEmbeddedOnce states its use |
| RagAnswering.Context | rag-service/src/main/java/com/intellidesk/rag/service/RagService.java:47-49 | the joined match texts as a definition; ContextKeepsMatches and SingleMatchContext state its properties |
| RagAnswering.Prompt | rag-service/src/main/java/com/intellidesk/rag/service/RagService.java:74-91 | `buildPrompt` as a definition; PromptParts and PromptInjective state its properties |
| RagAnswering.Excerpt | rag-service/src/main/java/com/intellidesk/rag/service/RagService.java:59-60 | one source excerpt as a definition; ExcerptShape states its properties |
| RagAnswering.Mean | rag-service/src/main/java/com/intellidesk/rag/service/RagService.java:64-67 | the average score (0.0 for none) as a definition; MeanWithin states its bounds |
| RagAnswering.AnswerQuestion | rag-service/src/main/java/com/intellidesk/rag/service/RagService.java:27-72 | no matches: fixed text, no sources, 0.0, two calls; otherwise three calls, the prompt of context and question, the model's answer unchanged, one excerpt per match and the mean score |
| RagAnswering.QuestionEmbeddedOnce | rag-service/src/main/java/com/intellidesk/rag/service/RagService.java:29-36 | the question is embedded first and once; the search gets it with the defaulted limit |
| RagAnswering.NoMatchesAnswer | rag-service/src/main/java/com/intellidesk/rag/service/RagService.java:38-44 | the fixed answer comes exactly when nothing is found, and the chat model is then never called |
| RagAnswering.ContextKeepsMatches | rag-service/src/main/java/com/intellidesk/rag/service/RagService.java:47-49 | each match text sits in the context at its offset, in match order, followed by exactly "\n\n" when another match follows |
| RagAnswering.SingleMatchContext | rag-service/src/main/java/com/intellidesk/rag/service/RagService.java:47-49 | one match is the whole context |
| RagAnswering.PromptParts | rag-service/src/main/java/com/intellidesk/rag/service/RagService.java:74-91 | the prompt is the fixed head, the context, the middle, the question verbatim and the tail |
| RagAnswering.PromptInjective | rag-service/src/main/java/com/intellidesk/rag/service/RagService.java:74-91 | given the context's length, the prompt determines the question and the context |
| RagAnswering.ExcerptShape | rag-service/src/main/java/com/intellidesk/rag/service/RagService.java:58-61 | an excerpt has length min(100, len) + 3 ≤ 103, ends with "..." and is otherwise a prefix of the text |
| RagAnswering.Excerpts | rag-service/src/main/java/com/intellidesk/rag/service/RagService.java:58-61 | one excerpt per match, in match order |
| RagAnswering.SumBounds | rag-service/src/main/java/com/intellidesk/rag/service/RagService.java:64-67 | the sum of n scores in [lo, hi] lies in [n·lo, n·hi] |
| RagAnswering.MeanWithin | rag-service/src/main/java/com/intellidesk/rag/service/RagService.java:64-67 | the confidence lies between the lowest and highest score |
| EmployeeRequests.ValidExactly | employee-service/src/main/java/com/intellidesk/employee/dto/EmployeeRequest.java:19-67 | valid exactly when the eight texts are non-blank, the email is well formed, the phone matches, the four values are present, the birth date is past and a present salary is positive |
| EmployeeRequests.Violations | employee-service/src/main/java/com/intellidesk/employee/dto/EmployeeRequest.java:19-67 | every annotation the request breaks, as a definition; ValidExactly states it field by field |
| EmployeeRequests.IsValid | employee-service/src/main/java/com/intellidesk/employee/dto/EmployeeRequest.java:19-67 | no violation, as a definition; ValidExactly states what it means |
| EmployeeRequests.NotBlank | employee-service/src/main/java/com/intellidesk/employee/dto/EmployeeRequest.java:19 | `@NotBlank` as a definition: present and not blank after `trim` |
| EmployeeRequests.MatchesPhonePattern | employee-service/src/main/java/com/intellidesk/employee/dto/EmployeeRequest.java:38 | the phone pattern as a definition; PhonePatternShape and PhonePatternExamples state it |
| EmployeeRequests.UnconstrainedFields | employee-service/src/main/java/com/intellidesk/employee/dto/EmployeeRequest.java:62-87 | the unconstrained fields do not affect validation |
| EmployeeRequests.PhonePatternShape | employee-service/src/main/java/com/intellidesk/employee/dto/EmployeeRequest.java:38 | an optional single '+' then 10 to 15 digits and nothing else |
| EmployeeRequests.PhonePatternExamples | employee-service/src/main/java/com/intellidesk/employee/dto/EmployeeRequest.java:38 | the pattern on accepted and rejected examples |
| EmployeeResponses.FullName | employee-service/src/main/java/com/intellidesk/employee/dto/EmployeeResponse.java:68-70 | first + " " + last without a middle name, first + " " + middle + " " + last with one ("null" for a null part) |
| EmployeeResponses.FromEntity | employee-service/src/main/java/com/intellidesk/employee/dto/EmployeeResponse.java:59-102 | the full view as a definition; FromEntityCopies and FromEntityInjective state its properties |
| EmployeeResponses.FromEntityLimited | employee-service/src/main/java/com/intellidesk/employee/dto/EmployeeResponse.java:105-138 | the limited view as a definition; LimitedIsFullWithoutSensitive and LimitedHidesPay state its properties |
| EmployeeResponses.FromEntityCopies | employee-service/src/main/java/com/intellidesk/employee/dto/EmployeeResponse.java:60-102 | the full view copies every column under its own name, plus the full name |
| EmployeeResponses.FromEntityInjective | employee-service/src/main/java/com/intellidesk/employee/dto/EmployeeResponse.java:60-102 | the full view loses nothing: equal views come from equal rows |
| EmployeeResponses.LimitedIsFullWithoutSensitive | employee-service/src/main/java/com/intellidesk/employee/dto/EmployeeResponse.java:105-138 | the limited view is the full view with salary, bank, user id, alternate phone, postal code, notes and audit fields null |
| EmployeeResponses.LimitedHidesPay | employee-service/src/main/java/com/intellidesk/employee/dto/EmployeeResponse.java:105-138 | the limited view never shows salary or bank details |
| EmployeeResponses.EmptyMiddleName | employee-service/src/main/java/com/intellidesk/employee/dto/EmployeeResponse.java:68-70 | an empty middle name gives two spaces |
| EmployeeRepository.FindOne | employee-service/src/main/java/com/intellidesk/employee/repository/EmployeeRepository.java:14-18 | an `Optional` query: empty exactly for no match, the row for one match, an error for several |
| EmployeeRepository.WithDepartment | employee-service/src/main/java/com/intellidesk/employee/repository/EmployeeRepository.java:20 | exactly the rows with that department |
| EmployeeRepository.WithEmployeeId | employee-service/src/main/java/com/intellidesk/employee/repository/EmployeeRepository.java:14 | exactly the rows with that employee id |
| EmployeeRepository.WithUserId | employee-service/src/main/java/com/intellidesk/employee/repository/EmployeeRepository.java:16 | exactly the rows with that user id |
| EmployeeRepository.WithEmail | employee-service/src/main/java/com/intellidesk/employee/repository/EmployeeRepository.java:18 | exactly the rows with that email |
| EmployeeRepository.FindByEmployeeId | employee-service/src/main/java/com/intellidesk/employee/repository/EmployeeRepository.java:14 | `findByEmployeeId` as a definition over WithEmployeeId; FindOne states the outcome |
| EmployeeRepository.FindByUserId | employee-service/src/main/java/com/intellidesk/employee/repository/EmployeeRepository.java:16 | `findByUserId` as a definition over WithUserId; FindOne states the outcome |
| EmployeeRepository.FindByEmail | employee-service/src/main/java/com/intellidesk/employee/repository/EmployeeRepository.java:18 | `findByEmail` as a definition over WithEmail; FindOne states the outcome |
| EmployeeRepository.ExistsByEmployeeId | employee-service/src/main/java/com/intellidesk/employee/repository/EmployeeRepository.java:33 | `existsByEmployeeId` as a definition; ExistsIffFound ties it to `findByEmployeeId` |
| EmployeeRepository.ExistsByEmail | employee-service/src/main/java/com/intellidesk/employee/repository/EmployeeRepository.java:35 | `existsByEmail` as a definition; ExistsIffFound ties it to `findByEmail` |
| EmployeeRepository.Like | employee-service/src/main/java/com/intellidesk/employee/repository/EmployeeRepository.java:27-30 | one `LOWER(column) LIKE LOWER('%' + keyword + '%')` test as a definition, with a null column never matching |
| EmployeeRepository.MatchesKeyword | employee-service/src/main/java/com/intellidesk/employee/repository/EmployeeRepository.java:26-31 | the four-column `OR` as a definition; Search, SearchIgnoresCase and LongerKeywordNarrows state its properties |
| EmployeeRepository.WithStatus | employee-service/src/main/java/com/intellidesk/employee/repository/EmployeeRepository.java:22 | exactly the rows with that status |
| EmployeeRepository.WithReportingManager | employee-service/src/main/java/com/intellidesk/employee/repository/EmployeeRepository.java:24 | exactly the rows with that manager |
| EmployeeRepository.Search | employee-service/src/main/java/com/intellidesk/employee/repository/EmployeeRepository.java:26-31 | exactly the rows where the lower-cased keyword occurs in the lower-cased first name, last name, email or employee id |
| EmployeeRepository.ExistsIffFound | employee-service/src/main/java/com/intellidesk/employee/repository/EmployeeRepository.java:14-35 | `existsBy…` holds exactly when `findBy…` finds something |
| EmployeeRepository.EmptyKeywordMatchesAll | employee-service/src/main/java/com/intellidesk/employee/repository/EmployeeRepository.java:26-31 | the empty keyword finds every saved row |
| EmployeeRepository.SearchIgnoresCase | employee-service/src/main/java/com/intellidesk/employee/repository/EmployeeRepository.java:26-31 | the keyword's case does not matter |
| EmployeeRepository.LongerKeywordNarrows | employee-service/src/main/java/com/intellidesk/employee/repository/EmployeeRepository.java:26-31 | a keyword containing another finds a subset of its rows |
| EmployeeRepository.UniqueEmployeeIdFindsOne | employee-service/src/main/java/com/intellidesk/employee/entity/Employee.java:27 | with the unique column, `findByEmployeeId` never sees two rows |
| EmployeeRecords.NewEmployee | employee-service/src/main/java/com/intellidesk/employee/service/EmployeeService.java:38-74 | the request's fields, ACTIVE for a null status, the caller as creator and updater |
| EmployeeRecords.Updated | employee-service/src/main/java/com/intellidesk/employee/service/EmployeeService.java:95-129 | id, employee id, user id and creator kept; a null status keeps the old one; the other fields from the request |
| EmployeeRecords.UpdatedByHR | employee-service/src/main/java/com/intellidesk/employee/service/EmployeeService.java:150-184 | the general update with the salary left as it was |
| EmployeeRecords.InsertKeepsUnique | employee-service/src/main/java/com/intellidesk/employee/service/EmployeeService.java:29-36 | a new row with an unused employee id and email keeps both unique |
| EmployeeRecords.ReplaceKeepsUnique | employee-service/src/main/java/com/intellidesk/employee/service/EmployeeService.java:90-93 | a replaced row with its employee id kept and no email clash keeps both unique |
| EmployeeRecords.ValidRequestSaves | employee-service/src/main/java/com/intellidesk/employee/service/EmployeeService.java:38-74 | a valid request gives rows with every NOT NULL column filled |
| EmployeeRecords.EmployeeService.CreateEmployee | employee-service/src/main/java/com/intellidesk/employee/service/EmployeeService.java:25-80 | a taken employee id is refused before a taken email, leaving the table unchanged; otherwise the new row is stored under the next id |
| EmployeeRecords.EmployeeService.UpdateEmployee | employee-service/src/main/java/com/intellidesk/employee/service/EmployeeService.java:83-135 | a missing id or a changed email that is taken is refused, leaving the table unchanged; otherwise the row becomes `Updated` |
| EmployeeRecords.EmployeeService.UpdateEmployeeByHR | employee-service/src/main/java/com/intellidesk/employee/service/EmployeeService.java:138-190 | the same, with `UpdatedByHR` |
| EmployeeRecords.EmployeeService.UpdateEmployeeSalary | employee-service/src/main/java/com/intellidesk/employee/service/EmployeeService.java:193-205 | only salary, updater and update time change |
| EmployeeRecords.EmployeeService.UpdateEmployeeStatus | employee-service/src/main/java/com/intellidesk/employee/service/EmployeeService.java:267-278 | only status, updater and update time change |
| EmployeeRecords.EmployeeService.DeleteEmployee | employee-service/src/main/java/com/intellidesk/employee/service/EmployeeService.java:257-264 | exactly that id is removed; a missing id is refused |
| EmployeeRecords.EmployeeService.GetEmployeeById | employee-service/src/main/java/com/intellidesk/employee/service/EmployeeService.java:209-214 | the row's full view exactly when the id is present, not-found otherwise |
| EmployeeRecords.EmployeeService.GetEmployeeByEmployeeId | employee-service/src/main/java/com/intellidesk/employee/service/EmployeeService.java:217-222 | a found row has that employee id; not-found exactly when no row has it |
| EmployeeRecords.EmployeeService.GetEmployeeByUserId | employee-service/src/main/java/com/intellidesk/employee/service/EmployeeService.java:225-230 | a found row has that user id; not-found exactly when no row has it |
| EmployeeRecords.EmployeeService.GetAllEmployees | employee-service/src/main/java/com/intellidesk/employee/service/EmployeeService.java:233-238 | the full view of every row |
| EmployeeRecords.EmployeeService.GetEmployeesByDepartment | employee-service/src/main/java/com/intellidesk/employee/service/EmployeeService.java:241-246 | the full views of exactly the department's rows |
| EmployeeRecords.EmployeeService.SearchEmployees | employee-service/src/main/java/com/intellidesk/employee/service/EmployeeService.java:249-254 | the full views of exactly the matching rows |
| EmployeeRecords.EmployeeService.EmployeeIdLookup | employee-service/src/main/java/com/intellidesk/employee/service/EmployeeService.java:217-222 | under the table invariant, lookup by employee id succeeds exactly when a row has it |
| UserRegistration.FindRole | user-service/src/main/java/com/intellidesk/user/service/AuthService.java:58 | a found role has the name; none exactly when no role has it |
| UserRegistration.RolesAfter | user-service/src/main/java/com/intellidesk/user/service/AuthService.java:58-64 | the roles are unchanged when ROLE_USER exists; otherwise the default role is appended |
| UserRegistration.DefaultUserRole | user-service/src/main/java/com/intellidesk/user/service/AuthService.java:58-64 | the role given to a new user is named ROLE_USER |
| UserRegistration.NewUser | user-service/src/main/java/com/intellidesk/user/service/AuthService.java:46-68 | enabled, unverified, LOCAL, the encoded password, exactly the one role |
| UserRegistration.MapToUserDto | user-service/src/main/java/com/intellidesk/user/service/AuthService.java:101-117 | the user's fields, and the set of its role names |
| UserRegistration.AppendKeepsUnique | user-service/src/main/java/com/intellidesk/user/service/AuthService.java:38-70 | a user with an unused email and username keeps accounts unique |
| UserRegistration.RolesAfterKeepsSingle | user-service/src/main/java/com/intellidesk/user/service/AuthService.java:58-64 | at most one ROLE_USER before and after |
| UserRegistration.NewUserDtoRoles | user-service/src/main/java/com/intellidesk/user/service/AuthService.java:66-68 | a new account's DTO lists exactly ROLE_USER |
| UserRegistration.AuthService.Register | user-service/src/main/java/com/intellidesk/user/service/AuthService.java:37-77 | a taken email, then a taken username, is refused with nothing saved; otherwise the user is appended, the role is created only if absent, and the tokens and DTO are returned |
| GatewayAuthentication.OnError | api-gateway/src/main/java/com/intellidesk/gateway/filter/JwtAuthenticationFilter.java:80-84 | sets the status and completes the response; the body is untouched |
| GatewayAuthentication.Filter | api-gateway/src/main/java/com/intellidesk/gateway/filter/JwtAuthenticationFilter.java:31-74 | `filter` as a definition; ForwardedExactly, OpenRequestsUntouched and AcceptedTokenForwards state its properties |
| GatewayAuthentication.IsPublicEndpoint | api-gateway/src/main/java/com/intellidesk/gateway/filter/JwtAuthenticationFilter.java:76-78 | a public endpoint is a prefix of the path, as a definition; PublicByPrefix illustrates it |
| GatewayAuthentication.FirstHeader | api-gateway/src/main/java/com/intellidesk/gateway/filter/JwtAuthenticationFilter.java:49 | `getFirst("Authorization")` as a definition: the first value, or null |
| GatewayAuthentication.WithUserId | api-gateway/src/main/java/com/intellidesk/gateway/filter/JwtAuthenticationFilter.java:65-67 | the mutated request as a definition: X-User-Id set to the user name; AcceptedTokenForwards states it |
| GatewayAuthentication.Token | api-gateway/src/main/java/com/intellidesk/gateway/filter/JwtAuthenticationFilter.java:55 | `substring(7)` as a definition; TokenRestoresHeader states its property |
| GatewayAuthentication.ForwardedExactly | api-gateway/src/main/java/com/intellidesk/gateway/filter/JwtAuthenticationFilter.java:31-74 | forwarded exactly for OPTIONS, a public path or an accepted bearer token; otherwise a completed 401 |
| GatewayAuthentication.OpenRequestsUntouched | api-gateway/src/main/java/com/intellidesk/gateway/filter/JwtAuthenticationFilter.java:35-42 | preflight and public requests pass unchanged |
| GatewayAuthentication.AcceptedTokenForwards | api-gateway/src/main/java/com/intellidesk/gateway/filter/JwtAuthenticationFilter.java:55-69 | an accepted token forwards the request with X-User-Id set to the user name and nothing else changed |
| GatewayAuthentication.PublicByPrefix | api-gateway/src/main/java/com/intellidesk/gateway/filter/JwtAuthenticationFilter.java:76-78 | matching is by prefix: "/api/auth/login" + anything is public, "/api/employees" is not |
| GatewayAuthentication.TokenRestoresHeader | api-gateway/src/main/java/com/intellidesk/gateway/filter/JwtAuthenticationFilter.java:55 | the token is the header after "Bearer " |
| EmployeeAuthentication.Authority | employee-service/src/main/java/com/intellidesk/employee/security/JwtAuthenticationFilter.java:57 | starts with ROLE_; the role itself when it has the prefix, the prefixed role otherwise |
| EmployeeAuthentication.Authorities | employee-service/src/main/java/com/intellidesk/employee/security/JwtAuthenticationFilter.java:56-58 | one authority per role, same length and order |
| EmployeeAuthentication.RolesOrEmpty | employee-service/src/main/java/com/intellidesk/employee/security/JwtAuthenticationFilter.java:45-47 | null roles become the empty list |
| EmployeeAuthentication.Authenticate | employee-service/src/main/java/com/intellidesk/employee/security/JwtAuthenticationFilter.java:33-75 | the grant of a request as a definition; NoBearerNoGrant and GrantedExactly state when it is given and what it holds |
| EmployeeAuthentication.WithGrant | employee-service/src/main/java/com/intellidesk/employee/security/JwtAuthenticationFilter.java:66-68 | the three `setAttribute` calls as a definition; NullUserIdStillGrants and GrantKeepsOtherAttributes state their effect |
| EmployeeAuthentication.AuthoritiesNormalised | employee-service/src/main/java/com/intellidesk/employee/security/JwtAuthenticationFilter.java:56-58 | every authority has the prefix, and the mapping is idempotent |
| EmployeeAuthentication.AuthorityRecoversRole | employee-service/src/main/java/com/intellidesk/employee/security/JwtAuthenticationFilter.java:57 | removing an added prefix gives the role back |
| EmployeeAuthentication.NoBearerNoGrant | employee-service/src/main/java/com/intellidesk/employee/security/JwtAuthenticationFilter.java:33-36 | without a "Bearer " header nothing is granted |
| EmployeeAuthentication.GrantedExactly | employee-service/src/main/java/com/intellidesk/employee/security/JwtAuthenticationFilter.java:36-72 | granted exactly when the token validates, every claim is read and no role is null; the grant carries the claims, with null roles as [] |
| EmployeeAuthentication.SetAttribute | employee-service/src/main/java/com/intellidesk/employee/security/JwtAuthenticationFilter.java:66-68 | a null value removes the attribute; other attributes are untouched |
| EmployeeAuthentication.NullUserIdStillGrants | employee-service/src/main/java/com/intellidesk/employee/security/JwtAuthenticationFilter.java:51-66 | a missing user id only clears "userId"; the roles are still stored |
| EmployeeAuthentication.GrantKeepsOtherAttributes | employee-service/src/main/java/com/intellidesk/employee/security/JwtAuthenticationFilter.java:66-68 | only the three attributes are written |
| EmployeeAuthentication.JwtFilter.DoFilterInternal | employee-service/src/main/java/com/intellidesk/employee/security/JwtAuthenticationFilter.java:29-79 | the chain is called exactly once; attributes and authentication change only with a grant, to its values |
| SqlTool.IsQueryAllowedExactly | tool-service/src/main/java/com/intellidesk/tool/service/SqlToolService.java:66-69 | allowed exactly when white space is followed by "select" in any case |
| SqlTool.IsQueryAllowed | tool-service/src/main/java/com/intellidesk/tool/service/SqlToolService.java:66-69 | `isQueryAllowed` as a definition; IsQueryAllowedExactly reads it independently |
| SqlTool.AllowedIgnoresCase | tool-service/src/main/java/com/intellidesk/tool/service/SqlToolService.java:66-69 | lower- or upper-casing the query does not change the decision |
| SqlTool.AllowedAfterWhiteSpace | tool-service/src/main/java/com/intellidesk/tool/service/SqlToolService.java:66-69 | leading white space does not change the decision |
| SqlTool.GuardAcceptsPadded | tool-service/src/main/java/com/intellidesk/tool/service/SqlToolService.java:66-69 | "  select * from employees" passes |
| SqlTool.GuardAcceptsLongerWord | tool-service/src/main/java/com/intellidesk/tool/service/SqlToolService.java:66-69 | "SELECTED" passes: the guard reads a prefix, not a word |
| SqlTool.GuardRejectsExamples | tool-service/src/main/java/com/intellidesk/tool/service/SqlToolService.java:66-69 | "DELETE …" and "" do not pass |
| SqlTool.DisallowedQuery | tool-service/src/main/java/com/intellidesk/tool/service/SqlToolService.java:19-21 | a refused query answers (false, "Only SELECT queries are allowed", null, 0) without building a URL or connecting |
| SqlTool.BuildJdbcUrl | tool-service/src/main/java/com/intellidesk/tool/service/SqlToolService.java:53-63 | succeeds exactly for postgresql and mysql in any case, giving "jdbc:" + type + "://host:port/db"; otherwise the IllegalArgumentException message |
| SqlTool.UrlIgnoresCase | tool-service/src/main/java/com/intellidesk/tool/service/SqlToolService.java:54 | the type's case does not matter |
| SqlTool.Put | tool-service/src/main/java/com/intellidesk/tool/service/SqlToolService.java:39 | `LinkedHashMap.put`: the key gets the value; a present key keeps its place, a new one goes last; other keys unchanged |
| SqlTool.FirstOccurrences | tool-service/src/main/java/com/intellidesk/tool/service/SqlToolService.java:36-40 | distinct names, the same set as the columns |
| SqlTool.RowKeys | tool-service/src/main/java/com/intellidesk/tool/service/SqlToolService.java:35-40 | a row's keys are the column names once each, in order of first occurrence |
| SqlTool.RowValues | tool-service/src/main/java/com/intellidesk/tool/service/SqlToolService.java:36-40 | a repeated name keeps the value of its last column |
| SqlTool.RowsExtend | tool-service/src/main/java/com/intellidesk/tool/service/SqlToolService.java:34-42 | one row per iteration, earlier rows kept |
| SqlTool.CellsFail | tool-service/src/main/java/com/intellidesk/tool/service/SqlToolService.java:36-40 | an exception at one column ends the row with that exception |
| SqlTool.RowsStayFailed | tool-service/src/main/java/com/intellidesk/tool/service/SqlToolService.java:34-49 | an exception in one row ends the reading with that exception |
| SqlTool.ReadCells | tool-service/src/main/java/com/intellidesk/tool/service/SqlToolService.java:36-40 | the column loop as a definition; RowKeys, RowValues and CellsFail state its properties |
| SqlTool.ReadRows | tool-service/src/main/java/com/intellidesk/tool/service/SqlToolService.java:34-42 | the row loop as a definition; RowsExtend and RowsStayFailed state its properties |
| SqlTool.Fetched | tool-service/src/main/java/com/intellidesk/tool/service/SqlToolService.java:31-45 | every row, or the first SQLException, as a definition; FetchRows is proved against it |
| SqlTool.Execute | tool-service/src/main/java/com/intellidesk/tool/service/SqlToolService.java:17-51 | `executeQuery` as a definition; ExecuteOutcome and DisallowedQuery state its properties, and ExecuteQuery is proved against it |
| SqlTool.ExecuteOutcome | tool-service/src/main/java/com/intellidesk/tool/service/SqlToolService.java:23-50 | an unsupported type escapes as an exception; otherwise success exactly when connecting and reading succeed, with rowCount = number of rows; any SQLException answers (false, "Error: " + message, null, 0) |
| SqlTool.ReadRow | tool-service/src/main/java/com/intellidesk/tool/service/SqlToolService.java:35-40 | the column loop is `ReadCells` over every column |
| SqlTool.FetchRows | tool-service/src/main/java/com/intellidesk/tool/service/SqlToolService.java:34-42 | the row loop is `Fetched`: every row in order, or the first exception |
| SqlTool.ExecuteQuery | tool-service/src/main/java/com/intellidesk/tool/service/SqlToolService.java:17-51 | the answer is `Execute` of the request |

## Left out

- I/O and collaborators are parameters. This covers the PDFBox and POI parsers, the library's recursive splitter (no segment counts or sizes are stated), the embedding and chat models, the vector store, the file system, the WebSocket topic, the password encoder, the token provider, the JWT utilities and the JDBC driver. The UUID, clocks and "today" are parameters too.
- Logging is left out everywhere.
- Exception messages and progress texts are structured values. `Message()` and `Text()` give the exact Java strings.
- Case mapping covers ASCII letters only. Java's full Unicode case mapping is not modelled.
- Floating point is not modelled. Reals stand for the double confidence average, the `BigDecimal` salary and the `Double` salary argument.
- RagAnswering.ExcerptShape: Dafny strings count Unicode scalar values, while Java's `length()` and `substring` (RagService.java:59-60) count UTF-16 code units. For text outside the Basic Multilingual Plane the 100-character cut is in different units, and Java may split a surrogate pair; this is not modelled.
- DocumentIngestion.FailedUpload: every failure carries a message, so the "Error: null" that `"Error: " + e.getMessage()` (DocumentService.java:140-141) gives for an exception without a message does not occur.
- DocumentIngestion.Ingest: the embedding events use the percentage in exact arithmetic (`EmbeddingPercent`), not the 32-bit `int` expression of DocumentService.java:108, which overflows for very large documents (see "## Findings"). Ingest and DocumentService.UploadDocument therefore never report the wrapped percentage.
- DocumentIngestion.TextRun: the splitter is a total function, so an exception from `splitter.split` (DocumentService.java:93) is not modelled.
- RagAnswering.AnswerQuestion: an exception thrown by the embedding model, store or chat model just propagates, so the model leaves it out.
- EmployeeRequests.ValidExactly: `@Email` is a parameter, because its regular-expression grammar is the validator library's own.
- EmployeeRecords: `updatedAt` is set on every successful update. Hibernate's dirty-check and flush timing is not modelled.
- EmployeeRecords: identity values are a counter, so gaps left by failed inserts are not modelled.
- EmployeeRecords.EmployeeService.UpdateEmployeeSalary: a null `Double` argument throws before anything changes; this case is not modelled.
- EmployeeRepository.Search: JPQL LIKE wildcards inside the keyword (`%`, `_`) are not modelled. The keyword is a literal substring.
- EmployeeRepository: list results are sets of ids, because the database returns them in no defined order.
- UserRegistration: the User and Role JPA entities and their repositories are not part of this model. Users and roles are sequences searched by field.
- UserRegistration: `login` is not modelled. It depends on the authentication manager and the clock.
- GatewayAuthentication: the reactive `Mono` plumbing is not modelled. The outcome is a value.
- EmployeeAuthentication.JwtFilter.DoFilterInternal: the web authentication details (remote address, session) attached to the token are not modelled. The Authorization header value is a parameter.
- SqlTool: a null `query` (`trim()`, SqlToolService.java:67) or a null `datasourceType` (`toLowerCase()`, :54) throws `NullPointerException`; this is not modelled, as every field is a string. A null host, port or database would be formatted as "null" into the URL (:60-61), and a null username or password would reach `DriverManager.getConnection` (:26-27); the model passes the field values through, so neither case is distinguished.
- SqlTool: the `message` of an SQLException is never null in the model, so "Error: null" does not occur. Errors from `getMetaData` or `getColumnName` are folded into opening the connection.
- SqlTool.ExecuteOutcome: an SQLException from closing the result set, statement or connection at the end of the try-with-resources (:26-29) would turn a completed read into (false, "Error: …"); closing is not modelled and never fails.
- Controllers, the other tool services (API, notification, email), DTO getters and the Angular frontend are not part of this model.

## Findings

| source | as written | input that shows it | evidently intended | confidence | as-written member | corrected member |
|---|---|---|---|---|---|---|
| rag-service/src/main/java/com/intellidesk/rag/service/DocumentService.java:108 | `30 + (processedSegments * 70 / segments.size())` is evaluated in 32-bit `int`, so the product overflows once `processedSegments * 70` exceeds 2^31 - 1 | a document of 30,678,338 segments: the final embedding event reports -39% | a percentage in 30..100 that never decreases and is 100 at the last segment | not executed | DocumentIngestion.JavaPercentOverflows | DocumentIngestion.EmbeddingPercentRange |
