# Applied plan portal: validation and plan storage

The applied plan portal lets a student submit a plan of courses. Advisors then review the plan. This project models the server-side core of that program in Dafny and proves properties of the model. The core has three parts.

- **Schema validation** (`schema_validation.dfy`, module `SchemaValidation`).
  - `GetSchemaViolations` checks a request body against a schema. It has a strict mode, where every required field is checked, and a partial mode, where each schema field present in the body is checked.
  - `SanitizeUsingSchema` copies only the schema's fields out of a body.
  - `PlanSchema` is the schema of a plan record.
  - Records and schemas are ordered maps, because the order of JavaScript's `Object.keys` fixes the order in which messages are joined.
- **Plan constraints** (`constraints.dfy`, module `Constraints`).
  - `EnforceConstraints` runs eight checks in order and returns the first message that is not empty.
  - Those checks are: the user exists; the user is a student; the name is 5 to 50 UTF-16 units long; at least one course; no repeated course; every course is in the catalogue; no restricted course; at least 32 credits.
  - The database is modelled as a `Users` map (user id to role) and a `Catalog` map (course code to credits and restriction). Each query becomes the function that states what the database returns.
  - The SQL text built for the `IN (?,?,…)` lists is modelled too.
  - The catalogue checks return an `Outcome`. With no courses the `IN` list is empty: the count and credit statements end in `IN );` and the restriction statement in `IN ) AND restriction > 0 ORDER BY restriction;`. Each is malformed, and the call faults.
- **Plan storage** (`plan_store.dfy`, module `PlanStore`).
  - Class `PlanTables` holds the `Plan`, `SelectedCourse` and `PlanReview` tables and the next auto-increment id.
  - It has methods for saving, updating, fetching and deleting a plan.
  - It also builds the SQL text and parameter arrays for the multi-row insert and for the plan listing query.
- **Shared pieces** (`common.dfy`, module `Common`).
  - `Option` and `Outcome` (a resolved value, or a rejection).
  - JavaScript's `s.replace(/.$/, r)`, for texts whose last character is not above U+FFFF.
  - Repetition and character counting.

Stand-ins for what the model does not contain:

- Database queries become reads and updates of the modelled tables.
- A database error that the model does not derive from the tables is a boolean parameter (`insertFails`).
- The `validator` library's `isISO8601` is a function parameter `iso`.

## Model

| member | source | states |
|---|---|---|
| SchemaValidation.GetSchemaViolations | utils/schemaValidation.js:23-60 | The message returned equals `Violations`: "invalid input type" for a primitive, "no matching key" when no body key is in the schema, otherwise the joined messages of the partial or strict walk |
| SchemaValidation.PartialWalk | utils/schemaValidation.js:38-46 | The partial-mode loop appends, in the body's key order, the message of every body key the schema knows |
| SchemaValidation.StrictWalk | utils/schemaValidation.js:47-55 | The strict-mode loop appends, in the schema's key order, the message of every required key |
| SchemaValidation.RejectedBeforeFieldChecks | utils/schemaValidation.js:25-32 | A primitive always gets the invalid-input-type message. A body with no key in the schema, including an empty body, gets the no-matching-key message whatever the mode |
| SchemaValidation.PropertyViolation | utils/schemaValidation.js:71-119 | The message for one property is empty exactly when the property is in the schema, is present with a non-null value, and its value passes the field's validator |
| SchemaValidation.HasProperty | utils/schemaValidation.js:190-192 | The object is truthy and carries the key with a value other than null or undefined. Its meaning for validation is stated by `PropertyViolation` (a field without it is reported missing) and for sanitising by `SanitizedContents` (exactly the schema keys it holds for are copied) |
| SchemaValidation.FieldChecks | utils/schemaValidation.js:88-114 | An integer field passes exactly within its inclusive range, with no upper bound when none is set, for values below 1e21 in magnitude. A string field passes exactly within its inclusive length range. Any other type never passes |
| SchemaValidation.ParseShowInt | utils/schemaValidation.js:89-93 | Below 1e21 in magnitude, reading an integer's text back as `isInt` does gives the same integer. From 1e21 on, JavaScript writes the number in exponent form (`1e+21`), which `isInt` rejects |
| SchemaValidation.KeysInSchema | utils/schemaValidation.js:40-46 | The keys the partial walk visits are exactly the body keys that are in the schema |
| SchemaValidation.RequiredKeys | utils/schemaValidation.js:49-54 | The keys the strict walk visits are exactly the schema keys marked required |
| SchemaValidation.JoinEmptyIff | utils/schemaValidation.js:36-59 | The joined message is empty exactly when every visited property passes |
| SchemaValidation.StrictAcceptsIff | utils/schemaValidation.js:47-55 | With a matching key present, strict mode accepts exactly when every required schema field is present and valid |
| SchemaValidation.PartialAcceptsIff | utils/schemaValidation.js:38-46 | With a matching key present, partial mode accepts exactly when every body key that is in the schema is present and valid |
| SchemaValidation.OptionalFieldsIgnored | utils/schemaValidation.js:49-53 | In strict mode two bodies that agree on the required fields get the same message, whatever their other fields hold |
| SchemaValidation.UnknownKeysIgnored | utils/schemaValidation.js:14-22 | Keys the schema does not know, wherever they sit among the body's keys, never change the message, in either mode |
| SchemaValidation.KeysInSchemaWithout | utils/schemaValidation.js:40-46 | Taking the unknown keys out of a key list leaves the keys partial mode checks, and their order, unchanged |
| SchemaValidation.PresentKeys | utils/schemaValidation.js:132-136 | The copied keys are exactly the schema keys the body carries with a non-null value, without repeats |
| SchemaValidation.SanitizeUsingSchema | utils/schemaValidation.js:127-139 | The loop builds exactly the record `Sanitized` describes |
| SchemaValidation.SanitizedContents | utils/schemaValidation.js:127-139 | The sanitised record holds exactly the schema fields the body carries, with their values unchanged. A falsy body gives the empty record |
| SchemaValidation.SanitizeIdempotent | utils/schemaValidation.js:127-139 | Sanitising a sanitised record changes nothing |
| SchemaValidation.PlanSchemaBounds | utils/schemaValidation.js:143-185 | The plan schema's keys in order. status is optional, 0 to 4. planName is required, 5 to 50 characters (code points, as `isLength` counts them). studentId is required, at least 1, with no upper bound of its own, so it is accepted below 1e21, where its text turns to exponent form. lastUpdated is an optional ISO 8601 timestamp |
| SchemaValidation.PlanSchema | utils/schemaValidation.js:143-185 | The plan record's schema. Its keys, required flags and bounds are stated by `PlanSchemaBounds` and `PlanSchemaRequired` |
| SchemaValidation.PlanSchemaRequired | utils/schemaValidation.js:143-185 | planName and studentId are the plan schema's only required fields |
| SchemaValidation.PlanRecordAccepted | utils/schemaValidation.js:143-185 | A plan body passes the strict check exactly when it has a valid planName and a valid studentId |
| Constraints.EnforceConstraints | utils/validation.js:12-41 | The result is the first message that is not empty among the eight checks, in the source's order, or empty when all pass. It never faults, because the zero-course check runs before the catalogue checks |
| Constraints.FirstViolation | utils/validation.js:16-34 | Empty exactly when every check passed. Otherwise it is the message of a check that failed, every check before that one passed, and it is the message of the first check that failed |
| Constraints.EnforceAcceptsIff | utils/validation.js:12-226 | A plan is accepted exactly when: the user id is not empty and is a known user with role 0; the name is 5 to 50 UTF-16 units long, as JavaScript's `length` counts; there is at least one course; no course repeats; every course is in the catalogue with restriction 0; and the credits total at least 32 |
| Constraints.UserConstraint | utils/validation.js:45-66 | Empty exactly when the user id is not empty and is a known user, as the first conjunct of `EnforceAcceptsIff` states |
| Constraints.StudentConstraint | utils/validation.js:69-87 | Empty exactly when the user is known with role 0, as `EnforceAcceptsIff` states |
| Constraints.PlanNameConstraint | utils/validation.js:90-99 | Empty exactly when the name is 5 to 50 UTF-16 units long, as `EnforceAcceptsIff` and `AstralCharactersCountTwice` state |
| Constraints.ZeroCourseConstraint | utils/validation.js:102-110 | Empty exactly when at least one course is selected, as `EnforceAcceptsIff` states. Because it runs before the catalogue checks, `EnforceConstraints` never faults |
| Constraints.EnforceReportsFirstFailure | utils/validation.js:16-32 | When check k is the first to fail, its message is returned |
| Constraints.DuplicateCourseConstraint | utils/validation.js:113-126 | The loop over seen courses reports the duplicate message exactly when some code repeats |
| Constraints.DuplicateReported | utils/validation.js:16-26 | Once the identity and name checks pass, any non-empty list in which some course repeats is reported as a duplicate, whatever the catalogue holds |
| Constraints.CourseConstraint | utils/validation.js:129-158 | Faults exactly when the list is empty, because `IN );` is malformed SQL. Otherwise it compares the count of matching catalogue rows with the list length |
| Constraints.CourseCheckIff | utils/validation.js:143-150 | The count check passes exactly when no code repeats and every code is in the catalogue |
| Constraints.RestrictionConstraint | utils/validation.js:161-194 | Faults exactly when the list is empty. Otherwise its message is derived from the least positive restriction among the listed catalogue courses |
| Constraints.LeastRestriction | utils/validation.js:163-180 | The first row of `ORDER BY restriction` is absent exactly when no listed course is restricted. Otherwise it is a positive restriction that some listed course has, and no listed course has a smaller positive one |
| Constraints.RestrictionCheck | utils/validation.js:179-187 | The required-course message appears exactly when some course has restriction 1. The graduate/professional message appears exactly when none has 1 and some has more. The check passes exactly when all have 0 |
| Constraints.CreditConstraint | utils/validation.js:197-226 | Faults exactly when the list is empty. Otherwise it compares the summed credits of the matching rows with 32 |
| Constraints.CreditSumDistinct | utils/validation.js:199-212 | With no repeated code, the database's SUM over matching rows equals the credits of every selected course |
| Constraints.CreditCheckIff | utils/validation.js:212-219 | With no repeated code, the credit check passes exactly when the total is at least 32: 32 passes and 31 fails |
| Constraints.CatalogChecksPass | utils/validation.js:129-226 | With no repeated code, the three catalogue checks pass exactly when every course is in the catalogue and unrestricted and the credits reach 32 |
| Constraints.AstralCharactersCountTwice | utils/validation.js:90-99 | A character above U+FFFF counts as two units of the name's length: three such characters pass the name check and twenty-six fail it |
| Constraints.TwoCoursesTooFewCredits | utils/validation.js:197-226 | Two unrestricted courses of 4 and 3 credits are rejected for too few credits |
| Constraints.ExpandInList | utils/validation.js:131-140 | The parameter array is the course list. For n courses the text is the head, n `?` separated by commas, then the tail. For none, the head's last character is replaced by the tail |
| Constraints.PlaceholdersShape | utils/validation.js:136-140 | n placeholders take 2n-1 characters: n question marks and n-1 commas |
| Constraints.InListText | utils/validation.js:140-140 | Replacing the trailing comma of the repeated `?,` with the tail gives the same text as placeholder list plus tail, and the question marks add up |
| PlanStore.PlanTables.InsertPlan | models/plan.js:186-200 | Adds a plan under the next auto-increment id, owned by the user, with the given name and status 2. No other table changes |
| PlanStore.PlanTables.InsertSelectedCourses | models/plan.js:203-229 | Faults exactly when the insert fails, the list is empty (`VALUES;` is malformed) or the plan does not exist. Otherwise it appends one row per course, in order, and resolves with `[planId, courses, ""]` |
| PlanStore.PlanTables.DeletePlan | models/plan.js:232-247 | Removes the plan and returns 1 when it existed, otherwise 0. The plan's selected-course and review rows are removed with it, as the database's cascading foreign keys are taken to do |
| PlanStore.PlanTables.SavePlan | models/plan.js:7-31 | On success the new plan and its selected courses, in order, are stored and its id returned. On failure, because the insert failed or there were no courses, the compensating delete leaves the plan and course tables as before and the id is used up |
| PlanStore.PlanTables.UpdatePlan | models/plan.js:35-93 | The plan's owner never changes. A given name replaces the plan's name, and without one the name stays. A given course list resets the status to 2, recording a review by the owner when the status was something else, and deletes the plan's selected courses. The new list is inserted unless the unawaited insert is rejected (`insertFails` or an empty list), which leaves the plan with no courses. The count returned always includes the new list's length. A missing plan faults only when courses are given |
| PlanStore.PlanTables.GetPlan | models/plan.js:138-154 | Succeeds exactly when the plan exists, returning its row and its selected courses |
| PlanStore.UpdateReplacesCourses | models/plan.js:74-81 | After delete-then-insert the plan's courses are exactly the new list when the insert went through and none when it was rejected. Every other plan keeps its courses |
| PlanStore.DeleteRemovesCourses | models/plan.js:231-240 | Deleting leaves the plan with no selected courses and leaves other plans' courses alone |
| PlanStore.RowsWithoutSize | models/plan.js:75-77 | The delete's affected-row count is the number of the plan's selected courses |
| PlanStore.InsertSelectedCoursesQuery | models/plan.js:205-215 | The loop builds exactly the insert statement for the list's length and the interleaved parameter array |
| PlanStore.InsertStatementShape | models/plan.js:205-215 | For n courses the statement is the header, n tuples separated by commas, and a closing `;`. For none it is the malformed `... VALUES;` |
| PlanStore.TupleParamsLayout | models/plan.js:209-213 | The parameters alternate plan id and course code, two per course, in list order |
| PlanStore.GetPlansStatusQuery | models/plan.js:97-119 | The built text is the listing query of the request. Read back, it filters by status exactly when the status is not "5", sorts by creation exactly when created is "1", and sorts ascending exactly when ascend is "1" |
| PlanStore.ReadListQueryText | models/plan.js:100-119 | The listing text can be read back into the filter, order and direction that built it |
| PlanStore.ListQueryTextInjective | models/plan.js:100-119 | Different requests produce different SQL text |

## Left out

- Keys inherited through the prototype chain are not modelled. An example is a body key `"constructor"`, which `key in schema` would accept. Primitives are modelled as having no properties.
- Body values are null, undefined, integers or strings. Booleans, floating-point numbers, nested objects and arrays are not modelled. `isInt` is modelled as reading the value's text as an optional sign and decimal digits.
- SchemaValidation.FieldChecks: validator's `isInt` compares the text with `min` and `max` through JavaScript's `>=` and `<=`, which turn the text into a double. The model compares exact integers. The two differ only beyond 2^53: `Str("9007199254740993")` against a `max` of 9007199254740992 passes in JavaScript, because the text rounds to 2^53, and fails in the model. The plan schema's bounds (0, 4, 1 and no maximum) are small enough that this never arises for it.
- `isLength` (the schema's string check) counts Unicode code points here, as `isLength` does for surrogate pairs. Its handling of variation selectors is not modelled. The plan-name check in utils/validation.js counts UTF-16 units, and the model does the same there.
- SchemaValidation.Text: `Num(n)` is an exact integer. JavaScript numbers above 2^53 are rounded doubles whose text can differ in the trailing digits. The model keeps only the switch to exponent form at 1e21, with the exact digits.
- `isISO8601` with `strict: true` is the function parameter `iso`. The date grammar is not modelled.
- Asynchrony and concurrency are not modelled. Every query completes in program order, the two unawaited calls included.
- PlanStore.PlanTables.UpdatePlan: the unawaited `insertSelectedCourses` at models/plan.js:80 is modelled as finishing before `updatePlan` returns. A request that reads the plan between the two could see it without courses. Its rejection does not reach the caller of `updatePlan`; what an unhandled rejection does to the process (Node 15 and later end it unless a handler is installed) is not modelled.
- PlanStore.PlanTables.SavePlan: the compensating `deletePlan` at models/plan.js:19 is not awaited, so the rejection reaches the caller before the delete runs. The model applies the delete before returning the fault. A reader in between could still see the plan, and a failure of the delete itself is not modelled.
- PlanStore.PlanTables.InsertSelectedCourses: the only database error besides the cases the tables decide is the `insertFails` parameter.
- PlanStore.PlanTables.SavePlan: a failing `insertPlan` is not modelled.
- PlanStore.PlanTables.DeletePlan: the database schema is not part of this model. The removal of the plan's selected-course and review rows assumes cascading foreign keys. models/plan.js:231 promises selected courses and comments; the `Comment` table is not modelled.
- PlanStore.PlanTables.InsertSelectedCourses: the fault for a plan that does not exist assumes a foreign key from SelectedCourse to Plan.
- PlanStore.PlanTables.GetPlan: the course join at models/plan.js:144 has no ORDER BY, so the database may return the rows in any order. The model returns them in insertion order. The ordered round trip between SavePlan and GetPlan is a property of the model, not a promise of the source.
- Subquery lookups of an unknown course code, which insert a NULL course id, are not modelled. The selected courses are stored by code.
- `CURRENT_TIMESTAMP()` and the `created` and `lastUpdated` columns are not modelled. The listing query is modelled as its SQL text only: the SELECT is not executed.
- At line 122 the listing compares the status with the number 5, so the status is always passed as a parameter. The database ignores a parameter with no placeholder, so this makes no difference.
- `getPlanActivity` (comments and reviews UNION) is not modelled, nor is the `Comment` table.
- The API routes, the review model and the React client are outside the core.
- The UPDATE affected-row counts in `updatePlan` are modelled as matched rows.
- Constraints.UserConstraint and Constraints.StudentConstraint are modelled as lookups in a `Users` map rather than SQL text. The SQL text is modelled only for the IN-list checks.
- Constraints.CourseMessage and Constraints.CreditMessage use set semantics for a code listed twice, as `COUNT(*)` and `SUM` over `IN (...)` do. This matters only when the duplicate check has not already run.
- A repeated course is reported only after the user, student, name and zero-course checks pass, because the code runs the checks in that order.
