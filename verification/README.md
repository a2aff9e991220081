# argus-pep-common client core, in Dafny

A model of the core of the Argus PEP (policy enforcement point) client library.
It covers four parts:

- **String normalisation** (`Strings`, `Tokenizer`). These are the null-safe helpers every setter of the authorization model uses: Java's `String.trim()`, blank checks, null-safe equality, trim-or-null, and splitting a delimited list with `java.util.StringTokenizer`.
- **The authorization data model** (`Attributes`, `Decisions`, `Obligations`, `Results`, `Requests`, `Responses`). Each class is an immutable datatype with `Option` fields, and each setter is a pure function. Java's `equals(Object)` takes an `Obj<T>` argument: `Null`, `Foreign` (another class) or `Is(value)`. An `AttributeAssignment` carries an explicit object identity `ref`, because its `equals` depends on identity.
- **Client configuration** (`Config`). This covers the set-once endpoint list of `PEPClientConfiguration`, the `PEPClientConfigurationBuilder`, and the INI parser's splitting of `pepds` on spaces.
- **The request pipeline** (`InformationPoints`, `DaemonClient`, `Enforcement`). This covers `performRequest`'s outcome classification and the run of the policy information points (PIPs) over a request. It also covers the ordered failover loop over daemon endpoints, shared by the blocking `authorize` and the non-blocking job's `call`.

A call on a mutable Java object that may throw returns `Effect(after, thrown)`: the object's state after the call and the exception thrown, if any. A call that returns a value or throws returns `Outcome`: `Success(value)` or `Failure(exception)`. Java `int` is the subtype `Int32`.

The network, the Hessian/Base64 wire codec and the PIPs are parameters:

- a `Transport` says whether a request serialises (`encodes`) and what an HTTP exchange with an endpoint gives (`exchange`);
- a PIP is a function from a request to what `populateRequest` did with it (`PipReply`).

Where the documentation and the code disagree, the model follows the code:

- `Strings.toList` is documented to default a null delimiter to `,`, but it passes the null to `StringTokenizer`. The model gives `Failure(NullPointer)`.
- `Obligation.setFulfillOn` is documented to accept only Deny or Permit, but it checks the value already held. See Findings.
- The blocking `authorize` is documented to process obligations, but it never calls `runObligationHandlers`, and neither does the job. The model's `Authorize` and `Call` consist of the PIP run and the endpoint loop only.
- The job's `call` returns null when every endpoint declines. It does not fail.
- Endpoints that were never set are a null list. A client built on such a configuration throws `NullPointerException` from `authorize`, not "No policy enformcement daemon could be contacted." (`Enforcement.Process`).

## Model

| member | source | states |
|---|---|---|
| Tokenizer.Tokenize | src/main/java/org/glite/authz/common/model/util/Strings.java:114-123 | `StringTokenizer`'s tokens are non-empty and contain no delimiter character |
| Tokenizer.TokenizeSplit | src/main/java/org/glite/authz/common/model/util/Strings.java:114-123 | cutting the input at a delimiter cuts the token list there: tokens never span a delimiter |
| Tokenizer.TokenizeJoin | src/main/java/org/glite/authz/common/model/util/Strings.java:114-123 | tokenising non-empty, delimiter-free strings joined by a delimiter gives them back, in order |
| Tokenizer.TokenizeJoinAll | src/main/java/org/glite/authz/common/model/util/Strings.java:114-123 | tokenising delimiter-free strings, empty ones included, joined by a delimiter gives the non-empty ones, in order |
| Tokenizer.TokenizeDelimitersOnly | src/main/java/org/glite/authz/common/model/util/Strings.java:114-123 | an input made only of delimiters has no tokens |
| Tokenizer.TokenizeKeepsOtherChars | src/main/java/org/glite/authz/common/model/util/Strings.java:114-123 | the tokens concatenated are the input with exactly the delimiter characters removed: no other character is lost or reordered |
| Strings.Trim | src/main/java/org/glite/authz/common/model/util/Strings.java:91 | `trim()` gives a contiguous substring with a white prefix and a white suffix before and after it (chars up to U+0020), neither end of it white; it is empty exactly when the input is all white |
| Strings.TrimUnique | src/main/java/org/glite/authz/common/model/util/Strings.java:91 | any white prefix + bare middle + white suffix trims to the middle, so the characterisation above determines `trim()` |
| Strings.TrimIdempotent | src/main/java/org/glite/authz/common/model/util/Strings.java:91 | trimming a trimmed string changes nothing |
| Strings.IsEmpty | src/main/java/org/glite/authz/common/model/util/Strings.java:38-47 | true exactly when the string is null or consists only of chars up to U+0020 |
| Strings.SafeEquals | src/main/java/org/glite/authz/common/model/util/Strings.java:58-64 | both null: true; exactly one null: false; otherwise ordinary equality |
| Strings.SafeTrim | src/main/java/org/glite/authz/common/model/util/Strings.java:73-79 | null stays null; otherwise the `trim()` of the string |
| Strings.SafeTrimOrNull | src/main/java/org/glite/authz/common/model/util/Strings.java:89-98 | null exactly when `isEmpty`; otherwise the trimmed string, which is non-empty and bare |
| Strings.NormalIsFixed | src/main/java/org/glite/authz/common/model/util/Strings.java:89-98 | a null or non-empty bare string is left unchanged by trim-or-null |
| Strings.SafeTrimOrNullIdempotent | src/main/java/org/glite/authz/common/model/util/Strings.java:89-98 | trim-or-null applied twice equals applied once |
| Strings.TrimTokens | src/main/java/org/glite/authz/common/model/util/Strings.java:118-123 | the loop keeps only tokens that are non-blank after trimming, trimmed; one token gives nothing when it is blank and its `trim()` otherwise |
| Strings.TrimTokensAppend | src/main/java/org/glite/authz/common/model/util/Strings.java:118-123 | the loop treats each token on its own: the values of two token lists concatenated are the values of each, in order |
| Strings.TrimTokensNonEmpty | src/main/java/org/glite/authz/common/model/util/Strings.java:118-123 | empty tokens contribute no value |
| Strings.TrimTokensPointwise | src/main/java/org/glite/authz/common/model/util/Strings.java:118-123 | tokens with the same `trim()` give the same values |
| Strings.ToList | src/main/java/org/glite/authz/common/model/util/Strings.java:108-126 | null exactly for a null or blank input; a null delimiter with a non-blank input fails; every returned value is trimmed, non-empty and free of delimiter characters |
| Strings.WhitePrefixTokens | src/main/java/org/glite/authz/common/model/util/Strings.java:109-123 | white characters in front of the input, delimiters or not, change none of the values the token loop keeps |
| Strings.WhiteSuffixTokens | src/main/java/org/glite/authz/common/model/util/Strings.java:109-123 | white characters after the input, delimiters or not, change none of the values the token loop keeps |
| Strings.ToListTokens | src/main/java/org/glite/authz/common/model/util/Strings.java:108-126 | for every non-blank input and every delimiter string, the values are the trimmed, non-blank `StringTokenizer` tokens of the untrimmed input, in order |
| Strings.ToListDelimitersOnly | src/main/java/org/glite/authz/common/model/util/Strings.java:114-125 | a non-blank input made only of delimiter characters gives an empty list, not null |
| Strings.ToListJoin | src/main/java/org/glite/authz/common/model/util/Strings.java:108-126 | splitting trimmed, delimiter-free values joined by the delimiter gives the values back, in order |
| Strings.TrimPadded | src/main/java/org/glite/authz/common/model/util/Strings.java:91 | white characters added on either side do not change `trim()` |
| Strings.JoinTrimEnds | src/main/java/org/glite/authz/common/model/util/Strings.java:109 | trimming a joined list removes only the white padding at the front of the first value and the back of the last; a non-white delimiter stops it |
| Strings.ToListTrimsValues | src/main/java/org/glite/authz/common/model/util/Strings.java:108-126 | for any values free of a non-white delimiter whose join is non-blank, `toList` gives exactly the trimmed values, in order, with the blank and empty ones dropped |
| Attributes.NewAttribute | src/main/java/org/glite/authz/common/model/Attribute.java:160-163 | a new attribute has data type `DT_STRING`, null id and issuer, and no values |
| Attributes.SetId | src/main/java/org/glite/authz/common/model/Attribute.java:179-181 | stores trim-or-null of the argument and changes no other field |
| Attributes.SetDataType | src/main/java/org/glite/authz/common/model/Attribute.java:197-199 | stores trim-or-null of the argument, so a blank type gives null and not `DT_STRING`; no other field changes |
| Attributes.SetIssuer | src/main/java/org/glite/authz/common/model/Attribute.java:215-217 | stores trim-or-null of the argument and changes no other field |
| Attributes.AddValue | src/main/java/org/glite/authz/common/model/Attribute.java:224-226 | adding to the value set adds exactly that value and changes no other field |
| Attributes.AttributeEquals | src/main/java/org/glite/authz/common/model/Attribute.java:261-274 | true exactly for an attribute with the same id, data type, issuer and value set (insertion order irrelevant); false for null and other classes |
| Attributes.CopyDiverges | src/test/java/org/glite/authz/common/model/util/DeepCopyTest.java:66-74 | an equal copy whose issuer changes, or that gains a value the original lacks, is no longer equal |
| Attributes.NewAssignment | src/main/java/org/glite/authz/common/model/AttributeAssignment.java:40-41 | a new assignment has null attribute id, data type and value |
| Attributes.SetAttributeId | src/main/java/org/glite/authz/common/model/AttributeAssignment.java:57-59 | stores trim-or-null of the argument and changes no other field |
| Attributes.SetAssignmentDataType | src/main/java/org/glite/authz/common/model/AttributeAssignment.java:75-77 | stores trim-or-null of the argument and changes no other field |
| Attributes.SetValue | src/main/java/org/glite/authz/common/model/AttributeAssignment.java:93-95 | stores trim-or-null of the argument and changes no other field |
| Attributes.AssignmentEquals | src/main/java/org/glite/authz/common/model/AttributeAssignment.java:120-133 | as written: true exactly for the same object; false for null and other classes |
| Attributes.DistinctAssignmentsDiffer | src/main/java/org/glite/authz/common/model/AttributeAssignment.java:129-132 | two distinct assignment objects are unequal even when every field is equal |
| Attributes.AssignmentEqualsIntended | src/main/java/org/glite/authz/common/model/AttributeAssignment.java:120-133 | corrected: the same object, or equal attribute id, data type and value |
| Attributes.AssignmentEqualsFinding | src/main/java/org/glite/authz/common/model/AttributeAssignment.java:130 | two fresh assignments given the same id and value are unequal as written, equal as intended |
| Attributes.AssignmentEqualsIntendedSymmetric | src/main/java/org/glite/authz/common/model/AttributeAssignment.java:120-133 | the corrected equality is reflexive and symmetric |
| Decisions.DecisionToString | src/main/java/org/glite/authz/common/model/Result.java:84-97 | null for every int but the four decision constants; 0, 1, 2 and 3 are exactly the values named "Deny", "Permit", "Indeterminate" and "NotApplicable" |
| Decisions.DecisionToStringInjective | src/main/java/org/glite/authz/common/model/Result.java:84-97 | distinct decisions have distinct names |
| Obligations.NewObligation | src/main/java/org/glite/authz/common/model/Obligation.java:45-47 | a new obligation has null id, fulfillOn Deny (0) and no assignments |
| Obligations.SetObligationId | src/main/java/org/glite/authz/common/model/Obligation.java:63-65 | stores trim-or-null of the argument and changes no other field |
| Obligations.SetFulfillOn | src/main/java/org/glite/authz/common/model/Obligation.java:82-87 | as written: any int is stored while Deny or Permit is held; otherwise it throws "Invalid FulfillOn value" and changes nothing |
| Obligations.FulfillOnFinding | src/main/java/org/glite/authz/common/model/Obligation.java:76-87 | a fresh obligation accepts Indeterminate, and then rejects even Deny |
| Obligations.FulfillOnStuck | src/main/java/org/glite/authz/common/model/Obligation.java:83-85 | once a value other than Deny or Permit is held, no sequence of calls changes the obligation |
| Obligations.SetFulfillOnIntended | src/main/java/org/glite/authz/common/model/Obligation.java:76-87 | corrected: the argument must be Deny or Permit, else it throws and nothing changes |
| Obligations.FulfillOnIntendedInvariant | src/main/java/org/glite/authz/common/model/Obligation.java:76-87 | with the corrected check, Deny-or-Permit holds after any sequence of calls |
| Obligations.AddAssignment | src/main/java/org/glite/authz/common/model/Obligation.java:94-96 | adding to the assignment list appends exactly that assignment |
| Obligations.AssignmentListEquals | src/main/java/org/glite/authz/common/model/Obligation.java:139-140 | list equality of assignments holds exactly when both lists hold the same objects in the same order |
| Obligations.ObligationEquals | src/main/java/org/glite/authz/common/model/Obligation.java:129-141 | equal exactly when the id, fulfillOn and the identities of the assignment list, in order, are equal; false for null and other classes |
| Obligations.SeparateObligationsDiffer | src/main/java/org/glite/authz/common/model/Obligation.java:139-140 | obligations whose assignments were created separately are unequal unless both lists are empty |
| Obligations.ObligationEqualsEquivalence | src/main/java/org/glite/authz/common/model/Obligation.java:129-141 | obligation equality is reflexive, symmetric and transitive |
| Results.NewStatusCode | src/main/java/org/glite/authz/common/model/StatusCode.java:37-38 | a new status code has null code and sub-code |
| Results.SetCode | src/main/java/org/glite/authz/common/model/StatusCode.java:54-56 | stores trim-or-null of the argument and keeps the sub-code |
| Results.SetSubCode | src/main/java/org/glite/authz/common/model/StatusCode.java:72-74 | stores the argument unchanged and keeps the code |
| Results.StatusCodeEquals | src/main/java/org/glite/authz/common/model/StatusCode.java:97-120 | true exactly for a status code with an equal code and a sub-code that is null on both sides or recursively equal |
| Results.StatusCodeEqualsChain | src/main/java/org/glite/authz/common/model/StatusCode.java:97-120 | two status codes are equal exactly when their sub-code chains have the same length and equal codes at every level |
| Results.NewStatus | src/main/java/org/glite/authz/common/model/Status.java:37-38 | a new status has null message and code |
| Results.SetMessage | src/main/java/org/glite/authz/common/model/Status.java:54-56 | stores trim-or-null of the argument and keeps the code |
| Results.SetStatusCode | src/main/java/org/glite/authz/common/model/Status.java:72-74 | stores the argument unchanged and keeps the message |
| Results.StatusEquals | src/main/java/org/glite/authz/common/model/Status.java:97-120 | true exactly for a status with an equal message and a code that is null on both sides or equal |
| Results.NewResult | src/main/java/org/glite/authz/common/model/Result.java:57-59 | a new result has decision Deny (0), null resource id and status, and no obligations |
| Results.DecisionString | src/main/java/org/glite/authz/common/model/Result.java:75-77 | the name of the held decision, as the decision-name table gives it; never null while the decision is one `setDecision` accepts |
| Results.DecisionStringAfterSet | src/main/java/org/glite/authz/common/model/Result.java:75-110 | after `setDecision(d)` with an accepted `d` the result is named as `d` is; after a rejected value its name is what it was |
| Results.SetDecision | src/main/java/org/glite/authz/common/model/Result.java:104-110 | exactly the four decisions are stored; any other int throws "Invalid decision value" and leaves the result unchanged |
| Results.SetResourceId | src/main/java/org/glite/authz/common/model/Result.java:126-128 | stores trim-or-null of the argument and changes no other field |
| Results.SetStatus | src/main/java/org/glite/authz/common/model/Result.java:144-146 | stores the argument unchanged and changes no other field |
| Results.ObligationListEquals | src/main/java/org/glite/authz/common/model/Result.java:213-214 | list equality of obligations holds exactly when the lists are pairwise equal obligations, in order |
| Results.ResultEquals | src/main/java/org/glite/authz/common/model/Result.java:191-215 | equal exactly when decision, resource id, obligation list (in order) and status (null on both sides or equal) are equal |
| Requests.NewSubject | src/main/java/org/glite/authz/common/model/Subject.java:40-42 | a new subject has null category and no attributes |
| Requests.SetCategory | src/main/java/org/glite/authz/common/model/Subject.java:58-60 | stores trim-or-null of the argument and keeps the attributes |
| Requests.AddSubjectAttribute | src/main/java/org/glite/authz/common/model/Subject.java:67-69 | adding to the live attribute set adds exactly that attribute |
| Requests.ClearSubjectAttributes | src/main/java/org/glite/authz/common/model/Subject.java:67-69 | clearing the live attribute set empties it and keeps the category |
| Requests.SubjectEquals | src/main/java/org/glite/authz/common/model/Subject.java:100-112 | true exactly for a subject with an equal category and attribute set |
| Requests.SubjectRebuilt | src/test/java/org/glite/authz/common/model/util/DeepCopyTest.java:76-86 | a copy emptied and given an equal attribute is equal again; adding an attribute the original lacks makes it unequal |
| Requests.NewResource | src/main/java/org/glite/authz/common/model/Resource.java:40-42 | a new resource has null content and no attributes |
| Requests.SetResourceContent | src/main/java/org/glite/authz/common/model/Resource.java:58-60 | stores trim-or-null of the argument and keeps the attributes |
| Requests.ResourceEquals | src/main/java/org/glite/authz/common/model/Resource.java:101-114 | true exactly for a resource with equal content and attribute set; false for null and other classes |
| Requests.NewAction | src/main/java/org/glite/authz/common/model/Action.java:38-40 | a new action has no attributes |
| Requests.ActionEquals | src/main/java/org/glite/authz/common/model/Action.java:74-84 | true exactly for an action with an equal attribute set; false for null and other classes |
| Requests.ActionHashCodeConsistent | src/main/java/org/glite/authz/common/model/Action.java:69-71 | the hash code reads only the attribute set, so equal actions hash alike |
| Requests.NewEnvironment | src/main/java/org/glite/authz/common/model/Environment.java:36-38 | a new environment has no attributes |
| Requests.EnvironmentEquals | src/main/java/org/glite/authz/common/model/Environment.java:72-82 | true exactly for an environment with an equal attribute set; false for null and other classes |
| Requests.EnvironmentHashCodeConsistent | src/main/java/org/glite/authz/common/model/Environment.java:67-69 | the hash code reads only the attribute set, so equal environments hash alike |
| Requests.NewRequest | src/main/java/org/glite/authz/common/model/Request.java:45-48 | a new request has no subjects or resources and null action and environment |
| Requests.SetAction | src/main/java/org/glite/authz/common/model/Request.java:82-84 | stores the argument, null included, and changes nothing else |
| Requests.SetEnvironment | src/main/java/org/glite/authz/common/model/Request.java:100-102 | stores the argument, null included, and changes nothing else |
| Requests.RequestEquals | src/main/java/org/glite/authz/common/model/Request.java:147-182 | true exactly for a request whose action and environment are each null on both sides or equal, with equal resource and subject sets |
| Responses.NewResponse | src/main/java/org/glite/authz/common/model/Response.java:39-41 | a new response has a null request and no results |
| Responses.SetRequest | src/main/java/org/glite/authz/common/model/Response.java:57-59 | stores the argument unchanged and keeps the results |
| Responses.AddResult | src/main/java/org/glite/authz/common/model/Response.java:66-68 | adding to the live result list appends exactly that result |
| Responses.ResultListEquals | src/main/java/org/glite/authz/common/model/Response.java:124 | list equality of results holds exactly when the lists are pairwise equal results, in order |
| Responses.ResponseEquals | src/main/java/org/glite/authz/common/model/Response.java:102-125 | equal exactly when the result lists are equal in order and the requests are null on both sides or equal |
| Responses.ResponseEqualsEquivalence | src/main/java/org/glite/authz/common/model/Response.java:102-125 | response equality is reflexive, symmetric and transitive |
| Config.NewConfiguration | src/main/java/org/glite/authz/pep/client/config/PEPClientConfiguration.java:34-36 | a fresh configuration's endpoint getter returns null |
| Config.GetPepDaemonEndpoints | src/main/java/org/glite/authz/pep/client/config/PEPClientConfiguration.java:43-45 | null exactly while unset; otherwise the stored list |
| Config.SetPepDaemonEndpoints | src/main/java/org/glite/authz/pep/client/config/PEPClientConfiguration.java:52-62 | null or empty: no-op in every state; first non-empty list: becomes the endpoint list, which later calls cannot replace; any later non-empty list: throws the "already been set" IllegalState and changes nothing |
| Config.SetOnce | src/main/java/org/glite/authz/pep/client/config/PEPClientConfiguration.java:52-62 | after any sequence of calls, a set endpoint list is never replaced, and an unset one becomes the first non-empty list given |
| Config.NewBuilder | src/main/java/org/glite/authz/pep/client/config/PEPClientConfigurationBuilder.java:34-37 | a fresh builder has an empty, modifiable endpoint list |
| Config.BuilderFrom | src/main/java/org/glite/authz/pep/client/config/PEPClientConfigurationBuilder.java:44-49 | a null prototype throws NullPointerException; otherwise adopts the prototype's own (read-only) endpoint list, or a new empty list when it has none |
| Config.AddEndpoint | src/main/java/org/glite/authz/pep/client/config/PEPClientConfigurationBuilder.java:64-66 | adding through the live list appends exactly that endpoint; on a prototype's read-only list it throws and changes nothing |
| Config.Build | src/main/java/org/glite/authz/pep/client/config/PEPClientConfigurationBuilder.java:52-57 | as written: every build throws NullPointerException, whatever the builder holds |
| Config.BuildIntended | src/main/java/org/glite/authz/pep/client/config/PEPClientConfigurationBuilder.java:52-57 | corrected: the built configuration holds the builder's endpoints, read-only, or none when the builder has none |
| Config.BuildRoundTrip | src/main/java/org/glite/authz/pep/client/config/PEPClientConfigurationBuilder.java:44-57 | a builder made from a built configuration holds the endpoints it was built from |
| Config.PepdsEndpoints | src/main/java/org/glite/authz/pep/client/config/PEPClientIniConfigurationParser.java:113 | every endpoint listed in `pepds` is non-empty and contains no space |
| Config.ProcessPepds | src/main/java/org/glite/authz/pep/client/config/PEPClientIniConfigurationParser.java:111-116 | the builder's list gains the space-separated tokens, in order; a null value throws; a read-only list throws on the first token |
| Config.ParsePepds | src/main/java/org/glite/authz/pep/client/config/PEPClientIniConfigurationParser.java:70-116 | with the parser's fresh builder, the endpoints are exactly the tokens: non-empty and space-free |
| Config.PepdsKeepsOtherChars | src/main/java/org/glite/authz/pep/client/config/PEPClientIniConfigurationParser.java:113 | only spaces separate endpoints: tabs and all other characters stay inside the tokens, in order |
| Config.PepdsAllSpaces | src/main/java/org/glite/authz/pep/client/config/PEPClientIniConfigurationParser.java:113-116 | an empty or all-space value adds no endpoints |
| Config.PepdsJoin | src/main/java/org/glite/authz/pep/client/config/PEPClientIniConfigurationParser.java:113-116 | endpoints written out with single spaces between them are read back unchanged |
| DaemonClient.PerformRequest | src/main/java/org/glite/authz/pep/client/PEPDaemonClient.java:88-122 | fails exactly on a serialisation or I/O failure, with the serialisation or "Unable to read response" message; a 200 gives the decoded response (possibly null); any other status gives null |
| DaemonClient.SerializeFailureSendsNothing | src/main/java/org/glite/authz/pep/client/PEPDaemonClient.java:91-105 | when the request cannot be serialised, the exchange cannot influence the outcome: nothing is sent |
| DaemonClient.NonNull | src/main/java/org/glite/authz/pep/client/PEPDaemonClient.java:139-140 | the positions of the non-null PIPs, each exactly once, in increasing order |
| DaemonClient.RunFrom | src/main/java/org/glite/authz/pep/client/PEPDaemonClient.java:132-149 | the PIPs invoked are a prefix of the non-null PIPs in list order, and all of them when nothing throws; with none invoked the request is untouched |
| DaemonClient.RunFromInvokesNonNull | src/main/java/org/glite/authz/pep/client/PEPDaemonClient.java:139-140 | only non-null entries of the list are invoked |
| DaemonClient.RunFromChain | src/main/java/org/glite/authz/pep/client/PEPDaemonClient.java:139-147 | the first PIP receives the caller's request; each later PIP receives the request its predecessor left after returning normally |
| DaemonClient.RunFromLast | src/main/java/org/glite/authz/pep/client/PEPDaemonClient.java:139-148 | the run throws exactly the exception of the last PIP invoked, if it threw, and the final request is what that PIP left, so earlier changes remain |
| DaemonClient.RunPolicyInformationPoints | src/main/java/org/glite/authz/pep/client/PEPDaemonClient.java:132-149 | a run with no exception invokes every non-null PIP exactly once, in order |
| DaemonClient.AppliedFlagIgnored | src/main/java/org/glite/authz/pep/client/PEPDaemonClient.java:141-146 | replacing every PIP's applied flag by false gives exactly the same run |
| DaemonClient.EnrichingRunExtends | src/main/java/org/glite/authz/pep/client/PEPDaemonClient.java:139-148 | when every PIP only adds to a request, the request after the run keeps all it held before, even when a PIP throws |
| DaemonClient.RunObligationHandlers | src/main/java/org/glite/authz/pep/client/PEPDaemonClient.java:159-161 | request and response are left unchanged and nothing is thrown |
| Enforcement.Failover | src/main/java/org/glite/authz/pep/client/BlockingPolicyEnforcementPoint.java:72-77 | endpoints are tried in order; the contacted ones are a prefix of the list; all but the last declined; the last answered (its response returned), threw (its exception propagated) or, with all declined, the list is exhausted |
| Enforcement.FailoverOutcomeUnique | src/main/java/org/glite/authz/pep/client/BlockingPolicyEnforcementPoint.java:72-77 | the outcome description of the loop admits one dispatch and one contacted count |
| Enforcement.FirstAnswerWins | src/main/java/org/glite/authz/pep/client/BlockingPolicyEnforcementPoint.java:72-77 | when endpoint j is the first that answers, its response is returned and no later endpoint is contacted |
| Enforcement.NewBlockingPep | src/main/java/org/glite/authz/pep/client/BlockingPolicyEnforcementPoint.java:46-53 | a null configuration throws "Configuration may no be null"; otherwise the client holds the configuration |
| Enforcement.BlockingResult | src/main/java/org/glite/authz/pep/client/BlockingPolicyEnforcementPoint.java:72-79 | a response is returned, an exception propagated, or, on exhaustion, "No policy enformcement daemon could be contacted." thrown |
| Enforcement.JobResult | src/main/java/org/glite/authz/pep/client/NonblockingPolicyEnformcementPoint.java:106-113 | a response is returned, an exception propagated, or, on exhaustion, null returned |
| Enforcement.BlockingAndJobDifferOnlyOnExhaustion | src/main/java/org/glite/authz/pep/client/NonblockingPolicyEnformcementPoint.java:106-113 | the two clients agree on answered and failed loops; on exhaustion the blocking one throws and the job returns null |
| Enforcement.Process | src/main/java/org/glite/authz/pep/client/BlockingPolicyEnforcementPoint.java:66-80 | the PIPs run before any endpoint is contacted; their exception ends the call with no endpoint contacted; otherwise the loop runs over the request they left |
| Enforcement.Authorize | src/main/java/org/glite/authz/pep/client/BlockingPolicyEnforcementPoint.java:66-80 | the PIPs' exception, or the loop's outcome on the enriched request reported as the blocking client does |
| Enforcement.Submit | src/main/java/org/glite/authz/pep/client/NonblockingPolicyEnformcementPoint.java:73-77 | each call adds exactly one job, carrying the caller's request, and keeps the earlier jobs |
| Enforcement.Call | src/main/java/org/glite/authz/pep/client/NonblockingPolicyEnformcementPoint.java:100-114 | the PIPs' exception, or the loop's outcome on the enriched request reported as the job does |

## Left out

- `hashCode` arithmetic (Java string hashes with 32-bit overflow) is left out. The model keeps only the fact that `Action`/`Environment` hash codes read the attribute set alone: a set hash is a parameter.
- `toString` formatting, `serialVersionUID` and the attribute-id/data-type URI constants are left out. They hold no logic; only `DT_STRING` is kept.
- Attribute values are modelled as strings. The source holds arbitrary objects compared by their own `equals`.
- Attributes stored in a set and mutated afterwards would change their hash under `HashSet`. Sets here are mathematical sets.
- `LazySet`/`LazyList` are not part of this model. They are treated as an ordinary set and list, including in `Attribute`, `Obligation` and `Action`, which import them from `org.glite.authz.common.util`.
- Null elements inside collections (a null attribute in a set, a null result in a list) are left out. PIP lists, which the loop explicitly checks for null entries, are the exception.
- Object identity is modelled only for `AttributeAssignment`, where `equals` observes it. The `this == obj` shortcut of every other `equals` agrees with structural equality, so it adds nothing.
- Java `char` is a UTF-16 unit; `char` here is a Unicode scalar. Trimming compares against U+0020 either way.
- A cyclic sub-code chain (`a.setSubCode(a)`) is left out. A datatype cannot be cyclic, and on such a chain the source's `equals` does not terminate.
- HTTP client construction, connection and buffer settings, TLS/VOMS trust managers and the Hessian 1/Base64 codec are left out. These are foreign libraries and network I/O; `Transport` stands for them. A decoding failure of a 200 answer is an `IOFailure` of the exchange.
- Runtime exceptions thrown by the HTTP client itself (for example a malformed URL) are left out. Only the `IOException` path is modelled.
- `Config.NewConfiguration`: `populateConfiguration` and the base configuration (`AbstractConfiguration`/`AbstractConfigurationBuilder`) are not part of this model. A configuration carries only its endpoints and the PIP list the base would hold. A null PIP list returned by the base is not modelled.
- The executor, `Future` and `shutdown` of the non-blocking client are left out; their point is concurrency. Only the job's sequential `call` and the one-job-per-call submission are modelled.
- `Enforcement.Authorize` and `Enforcement.Call` return only the outcome. The caller's request object is also changed in place by the PIPs; that changed request is `RunPolicyInformationPoints(...).request`.
- `Config.ProcessPepds` models only the `pepds` loop of `processClientConfiguration`. ini4j loading, `IniConfigUtil`, the numeric settings and the PIP and obligation-handler sections are not part of this model.
- The PIP `start`/`stop` lifecycle is not exercised by the client code.
- The `ObligationHandler` interface and handler precedence are not exercised by the client code either: `runObligationHandlers` has an empty body. No invented ordering stands in for them.
- `DaemonClient.RunFrom`: the run calls the PIP's `getId` after each `populateRequest`, only to build a debug message; Java evaluates that argument whether or not debug logging is on. Its result, and any exception it throws (which would end the run after that PIP's changes), are not modelled.
- `PEPCLI` (command-line entry point with file reading and `System.exit`) and `DeepCopy` (Java serialisation) are left out. The deep-copy test appears only as the equality lemmas `CopyDiverges` and `SubjectRebuilt`.
- `Strings.ToList`: the behaviour of `StringTokenizer` with a null delimiter differs between JDK versions (it throws on first use). The model reports `NullPointer` for a non-blank input rather than picking a JDK.
- `Config.SetPepDaemonEndpoints`: the source stores `Collections.unmodifiableList(endpoints)`, a read-only view of the caller's own list, so changes the caller later makes to that list show through the configuration. The model stores a copy of the list's contents. `Config.SetOnce` and `Config.BuildIntended` therefore promise only that the field is never replaced, not that the contents seen through it never change.
- `Enforcement.Failover`: the transport's `exchange` is a pure function of the endpoint and the request. An endpoint URL listed twice therefore answers the same way both times, where a real daemon could answer differently on the second try. An attempt index would be needed to model that.
- `DaemonClient.RunFrom`: each PIP is a pure function of the request. A stateful PIP listed twice therefore acts the same way both times, where the source's object could keep state between the two calls.
- `Obligations.ObligationEquals`, `Results.ResultEquals` and `Responses.ResponseEquals` use the as-written assignment equality (object identity), since that is what the lists compare. The corrected assignment equality is not threaded through them.

## Findings

| source | as written | input that shows it | evidently intended | confidence | as-written member | corrected member |
|---|---|---|---|---|---|---|
| src/main/java/org/glite/authz/common/model/Obligation.java:83 | `setFulfillOn` validates the value already held, not `newFulfillOn` | `new Obligation()` then `setFulfillOn(2)` is accepted; every later call, even `setFulfillOn(0)`, throws | reject any argument other than Deny or Permit | high, not executed | Obligations.FulfillOnFinding | Obligations.FulfillOnIntendedInvariant |
| src/main/java/org/glite/authz/common/model/AttributeAssignment.java:130 | `Strings.safeEquals(attributeId, otherAssignment)` compares the id string with the other assignment object | two fresh assignments, both given id "urn:id" and value "v", are unequal | compare with `otherAssignment.getAttributeId()` | high, not executed | Attributes.AssignmentEqualsFinding | Attributes.AssignmentEqualsIntended |
| src/main/java/org/glite/authz/pep/client/config/PEPClientConfigurationBuilder.java:55 | `config.getPepDaemonEndpoints().addAll(pepDaemons)` on a fresh configuration, whose list is null (and, once set, an unmodifiable view) | `new PEPClientConfigurationBuilder().build()`, or any INI parse | pass a copy of the builder's list to `setPepDaemonEndpoints` | high, not executed | Config.Build | Config.BuildIntended |
