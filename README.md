# Exam solutions: contacts API, health chatbot, sales report and student marks

This project is a Dafny model of four small Python programs from the `exam-solutions` collection. It proves what each one computes.

- **CRM contacts API** (`assignment5`). A SQLite-backed contacts store (`ContactsDatabase`) sits behind FastAPI handlers. The handlers validate a request body by hand (`validate_contact_data`). The pydantic request model `ContactBase` is modelled beside them.
  - `ContactsStore` models the table. Rows are a `seq<Contact>` in id order inside a `ContactsDatabase` class whose methods update `rows` and `nextId` in place.
  - The class keeps an invariant `Valid()`: ids increase, ids are never reused, and emails are unique.
  - The operations are create, get, update, delete, list and seed. Listing filters, sorts and pages.
  - `ContactsApi` models the handlers: validation, cleaning and the HTTP outcome of each route.
  - `ContactModels` models `ContactBase`: its length constraints, its four validators and the error list pydantic reports.
- **Healthcare chatbot** (`assignment6`, module `HealthBot`).
  - The medical-keyword safety redirect comes first.
  - Then `find_response` tries its ordered topic rules.
  - Two formatters build the replies: the list formatter and the meal-plan formatter.
  - The `/chat` route keeps a history of the last five messages, modelled as a `ChatSession` class.
- **Sales report** (`assignment2`, module `Sales`).
  - Line-by-line parsing of `product,quantity,price` records follows the checks and error order of `read_sales_data`.
  - The per-item totals and the total revenue are modelled too.
- **Student marks** (`assignment1`, module `StudentMarks`).
  - Names and marks are entered into a dictionary.
  - The program computes the average, the top scorers, the alphabetical list, the above-average list and each student's status.

Shared modules:
- `Text` models the Python string builtins the programs use. These are `strip` (with Python's whitespace set), `lower`, `title`, `split`, `in` on strings and string ordering.
- `Numerals` models `int()`, `float()` on decimal numerals and integer formatting.
- `Wrappers` holds `Option` and `Result`.

Observations the proofs bring out:
- `ContactsApi.RevalidateBlankPhone`: cleaning a body is not idempotent. A phone of only whitespace is kept as `""` the first time. Submitting the cleaned body again drops it to `None`.
- `HealthBot.DosShadowDonts`: the do's rule always shadows the don'ts words that contain "do".
- `HealthBot.CapitalisedPlanNeverMatches`: the message is lower-cased and plan names are not, so a capitalised plan name can never be selected.
- `ContactsApi.ModelAgreesWithHandler`: where pydantic accepts a body, the hand-written check accepts it with the same name and email.

## Model

| member | source | states |
|---|---|---|
| Text.StripWindow | exam-solutions/assignment2/file_handler.py:53 | the result is a window of the input with only whitespace cut on either side |
| Text.StripEnds | exam-solutions/assignment2/file_handler.py:53 | the result neither starts nor ends with whitespace |
| Text.StripEmptyIff | exam-solutions/assignment2/file_handler.py:53-57 | stripping gives the empty string exactly when the line is all whitespace (the "skip empty lines" test) |
| Text.StripIdempotent | exam-solutions/assignment5/models.py:16-20 | stripping twice is stripping once |
| Text.StripKeepsNonSpace | exam-solutions/assignment5/main.py:113 | a non-whitespace character such as '@' survives stripping |
| Text.Lower | exam-solutions/assignment6/app.py:87 | `lower()` keeps the length and maps every character through the ASCII lower-case map |
| Text.LowerHasNoCapitals | exam-solutions/assignment6/app.py:109 | a lower-cased message has no capital letter |
| Text.LowerIdempotent | exam-solutions/assignment5/main.py:113 | lower-casing twice is lower-casing once |
| Text.LowerKeepsNonLetter | exam-solutions/assignment5/main.py:113 | lower-casing keeps a non-letter such as '@' present exactly when it was |
| Text.StripLowerCommute | exam-solutions/assignment5/main.py:113 | stripping and lower-casing commute |
| Text.LowerOccurs | exam-solutions/assignment5/database.py:127-130 | a piece of a text equal to the term up to case makes the lower-cased term a substring of the lower-cased text |
| Text.SubstringTransitive | exam-solutions/assignment6/app.py:116-119 | a substring of a substring is a substring (the `in` test) |
| Text.LexLeTotal | exam-solutions/assignment1/student_marks.py:67 | string ordering is total |
| Text.LexLeTransitive | exam-solutions/assignment1/student_marks.py:67 | string ordering is transitive |
| Text.LexLeAntisymmetric | exam-solutions/assignment1/student_marks.py:67 | string ordering is antisymmetric |
| Text.TitleOnlyChangesCase | exam-solutions/assignment6/app.py:135 | `title()` keeps the length and changes letter case only |
| Text.TitleKeepsNonLetter | exam-solutions/assignment6/app.py:162 | `title()` keeps a non-letter present exactly when it was |
| Text.Split | exam-solutions/assignment2/file_handler.py:60 | splitting on a separator gives one more part than separators, and no part holds the separator |
| Text.JoinSplit | exam-solutions/assignment2/file_handler.py:60 | joining the parts of a split with the separator gives back the line |
| Text.SplitJoin | exam-solutions/assignment2/file_handler.py:60 | splitting parts joined by a separator they do not contain gives back the parts |
| Text.LinesAppend | exam-solutions/assignment6/app.py:146-147 | appending a line and a newline to the text of some lines is the text of the lines plus that one |
| Text.SplitLines | exam-solutions/assignment6/app.py:146-147 | text built from single lines splits on newlines back into those lines |
| Text.SplitWordsAreWords | exam-solutions/assignment6/app.py:134 | `split()` gives non-empty words without whitespace |
| Text.SplitWordsKeepsText | exam-solutions/assignment6/app.py:134 | the words of `split()`, concatenated, are the text with its whitespace removed |
| Numerals.ParseInt | exam-solutions/assignment2/file_handler.py:67 | `int()` accepts only an optional sign followed by at least one digit |
| Numerals.ParseIntRoundTrip | exam-solutions/assignment2/file_handler.py:67 | `int()` of a formatted integer gives the integer back |
| Numerals.NatToStringValue | exam-solutions/assignment2/file_handler.py:63 | the decimal digits written for a number denote that number |
| Numerals.ParseDecimalExtendsParseInt | exam-solutions/assignment2/file_handler.py:68 | `float()` of an integer numeral is the integer as a real number |
| Numerals.ParseDecimal | exam-solutions/assignment1/student_marks.py:33 | a negative `float()` result comes only from a numeral that starts with '-' |
| Numerals.UnsignedFraction | exam-solutions/assignment2/file_handler.py:68 | digits, a point and more digits read as the whole part plus the fraction's digits over the matching power of ten |
| Numerals.ParseDecimalFraction | exam-solutions/assignment2/file_handler.py:68 | `float()` of `w.f`, written from a whole number `w` and fraction digits `f`, is `w + f / 10^len(f)` exactly |
| Numerals.WholeNumeralValue | exam-solutions/assignment2/file_handler.py:68 | a price without fraction digits is its whole part |
| ContactsStore.FindById | exam-solutions/assignment5/database.py:84-93 | a contact is found exactly when a row has that id, and it is that row |
| ContactsStore.IdDeterminesRow | exam-solutions/assignment5/database.py:25 | with increasing ids, the primary key determines the row |
| ContactsStore.RemoveId | exam-solutions/assignment5/database.py:229 | the rows kept are exactly those with another id; nothing changes when the id is absent |
| ContactsStore.RemoveIdKeepsOrder | exam-solutions/assignment5/database.py:229 | deleting a row keeps the ids increasing |
| ContactsStore.RemoveIdKeepsEmailsUnique | exam-solutions/assignment5/database.py:27 | deleting a row keeps the emails unique |
| ContactsStore.ResolveSortField | exam-solutions/assignment5/database.py:136-139 | a listed sort field is used as given, and any other falls back to `id` |
| ContactsStore.ResolveOrder | exam-solutions/assignment5/database.py:141-142 | the order is descending exactly when its lower-cased form is `desc` |
| ContactsStore.KeyLeTotal | exam-solutions/assignment5/database.py:150 | the SQL ordering on each sort field (NULL company first) is total |
| ContactsStore.KeyLeTransitive | exam-solutions/assignment5/database.py:150 | the SQL ordering on each sort field is transitive |
| ContactsStore.PrecedesTotal | exam-solutions/assignment5/database.py:150 | the ordering with its direction applied is total |
| ContactsStore.PrecedesTransitive | exam-solutions/assignment5/database.py:150 | the ordering with its direction applied is transitive |
| ContactsStore.InsertSorted | exam-solutions/assignment5/database.py:150-158 | inserting adds the contact to the multiset of rows |
| ContactsStore.InsertSortedSorted | exam-solutions/assignment5/database.py:150-158 | inserting into a sorted sequence keeps it sorted |
| ContactsStore.SortContacts | exam-solutions/assignment5/database.py:150-158 | sorting is a permutation of the rows |
| ContactsStore.SortContactsSorted | exam-solutions/assignment5/database.py:150-158 | sorting gives rows in `ORDER BY` order |
| ContactsStore.SortedIsOrdered | exam-solutions/assignment5/database.py:150-158 | a sorted sequence has every pair (not just neighbours) in order |
| ContactsStore.CompanyMatches | exam-solutions/assignment5/database.py:123-125 | `LOWER(company) = LOWER(?)` when a company filter is given; characterised by ContactsStore.FiltersIgnoreCase |
| ContactsStore.SearchMatches | exam-solutions/assignment5/database.py:127-130 | `name LIKE ? OR email LIKE ?` as a case-insensitive substring test; characterised by ContactsStore.FiltersIgnoreCase and ContactsStore.SearchFindsSubstring |
| ContactsStore.Matches | exam-solutions/assignment5/database.py:119-134 | the active conditions joined with AND; characterised by ContactsStore.Filter and ContactsStore.FilterInactive |
| ContactsStore.Filter | exam-solutions/assignment5/database.py:119-134 | the filtered rows are exactly the matching rows, each with its multiplicity |
| ContactsStore.FilterInactive | exam-solutions/assignment5/database.py:119-134 | with no company and no search (absent or empty) every row is selected, in table order |
| ContactsStore.FiltersIgnoreCase | exam-solutions/assignment5/database.py:123-130 | the case of the company filter and of the search term makes no difference |
| ContactsStore.SearchFindsSubstring | exam-solutions/assignment5/database.py:127-130 | a search term that occurs in the name, up to case, selects the row |
| ContactsStore.Overwrite | exam-solutions/assignment5/database.py:198-208 | the `UPDATE` keeps the row's id and creation time and takes name, email, phone and company from the new data |
| ContactsStore.Page | exam-solutions/assignment5/database.py:155-157 | `LIMIT ? OFFSET ?` gives the clamped run of rows starting at the offset |
| ContactsStore.PageOfSorted | exam-solutions/assignment5/database.py:150-158 | a page of sorted rows is still in order |
| ContactsStore.PageMembers | exam-solutions/assignment5/database.py:155-160 | every row of a page is one of the sorted rows |
| ContactsStore.SeedFold | exam-solutions/assignment5/database.py:234-249 | the rows after trying each sample in turn; characterised by ContactsStore.SeedFoldExtends, SeedFoldCoversSamples, SeedFoldAllTaken and SeedIdempotent |
| ContactsStore.SeedFoldExtends | exam-solutions/assignment5/database.py:244-249 | seeding only appends rows |
| ContactsStore.TakenInPrefix | exam-solutions/assignment5/database.py:62-64 | an email taken in a prefix of the rows is taken in the whole |
| ContactsStore.SeedFoldCoversSamples | exam-solutions/assignment5/database.py:236-249 | after seeding, every sample email is present |
| ContactsStore.SeedFoldAllTaken | exam-solutions/assignment5/database.py:245-249 | seeding when all sample emails are taken changes nothing |
| ContactsStore.SeedIdempotent | exam-solutions/assignment5/database.py:234-249 | seeding a second time changes nothing |
| ContactsStore.ContactsDatabase.constructor | exam-solutions/assignment5/database.py:14-31 | a fresh table is empty and the first id is 1 |
| ContactsStore.ContactsDatabase.GetContactById | exam-solutions/assignment5/database.py:84-93 | returns the row with that id exactly when there is one |
| ContactsStore.ContactsDatabase.CreateContact | exam-solutions/assignment5/database.py:45-82 | a taken email fails with the duplicate-email error and changes nothing; otherwise the new row, with the next id and the given time, is appended; the invariant is kept |
| ContactsStore.ContactsDatabase.UpdateContact | exam-solutions/assignment5/database.py:169-215 | an absent id gives no contact; an email held by another row fails; otherwise that row alone is overwritten, keeping its id and creation time |
| ContactsStore.ContactsDatabase.DeleteContact | exam-solutions/assignment5/database.py:217-232 | reports a deletion exactly when the id was present, and removes exactly that row |
| ContactsStore.ContactsDatabase.GetContacts | exam-solutions/assignment5/database.py:95-167 | the count is the number of matching rows; the data is the page of the sorted matches, in order, each a matching row |
| ContactsStore.ContactsDatabase.SeedSampleData | exam-solutions/assignment5/database.py:234-249 | inserts each sample whose email is not yet taken, in order, and keeps the invariant |
| ContactsStore.ContactsDatabase.SeedContacts | exam-solutions/assignment5/database.py:245-249 | one `create_contact` per contact in order, a duplicate email skipped, the invariant kept |
| ContactModels.ValidateName | exam-solutions/assignment5/models.py:10-20 | accepts exactly a value of length 1..100 that is not all whitespace, and returns it stripped |
| ContactModels.ValidateEmail | exam-solutions/assignment5/models.py:11-26 | accepts exactly a value containing '@', and returns it lower-cased and stripped, still holding '@' |
| ContactModels.ValidateOptional | exam-solutions/assignment5/models.py:12-38 | an absent value is accepted as absent; a present one is accepted exactly within the bound, stripped |
| ContactModels.ValidatePhone | exam-solutions/assignment5/models.py:12-32 | a phone is accepted exactly when absent or at most 20 characters long, and is stored stripped |
| ContactModels.ValidateCompany | exam-solutions/assignment5/models.py:13-38 | a company is accepted exactly when absent or at most 100 characters long, and is stored stripped |
| ContactModels.ReportedConcat | exam-solutions/assignment5/models.py:9-38 | a field is reported by two error lists together exactly when one of them reports it |
| ContactModels.ReportedErrorsOf | exam-solutions/assignment5/models.py:9-38 | a field's own check reports that field exactly when it fails |
| ContactModels.CollectReports | exam-solutions/assignment5/models.py:9-38 | there is one error per failing field; the errors are empty exactly when every field passes, and each field is reported exactly when it fails, the name first |
| ContactModels.ValidateContactBase | exam-solutions/assignment5/models.py:9-38 | the model is built exactly when all four fields pass, from their cleaned values; otherwise one to four errors, as many as there are failing fields, each failing field reported |
| ContactsApi.NameCheck | exam-solutions/assignment5/main.py:99 | the name test is "missing, empty, or blank after stripping" |
| ContactsApi.CleanOptional | exam-solutions/assignment5/main.py:114-115 | an optional field is dropped exactly when missing or empty, and otherwise stored stripped |
| ContactsApi.NameErrors | exam-solutions/assignment5/main.py:99-100 | the name message is reported exactly when the name is blank |
| ContactsApi.EmailErrors | exam-solutions/assignment5/main.py:102-105 | no email message exactly when an email with '@' is given; a missing or empty email gets "Email is required"; an email without '@' gets the '@' message |
| ContactsApi.CleanEmail | exam-solutions/assignment5/main.py:113 | the email is lower-cased and stripped and keeps its '@' |
| ContactsApi.ValidateContactData | exam-solutions/assignment5/main.py:94-118 | refuses exactly a blank name or an email that is missing or lacks '@', with one message per failing field, the name first; otherwise returns the cleaned fields |
| ContactsApi.NameStable | exam-solutions/assignment5/main.py:112 | a stripped non-blank name is unchanged and still non-blank when stripped again |
| ContactsApi.EmailStable | exam-solutions/assignment5/main.py:113 | cleaning an email twice is cleaning it once, and it keeps its '@' |
| ContactsApi.ResubmitAccepted | exam-solutions/assignment5/main.py:94-118 | a cleaned body submitted again is accepted with the same name and email |
| ContactsApi.CleanedFields | exam-solutions/assignment5/main.py:94-118 | a body with a non-blank name and an email holding '@' is cleaned field by field |
| ContactsApi.ResubmitCleaned | exam-solutions/assignment5/main.py:94-118 | cleaned fields sent again are accepted with the same name and email |
| ContactsApi.OptionalCleanTwice | exam-solutions/assignment5/main.py:114-115 | cleaning an optional field twice is cleaning it once unless it was blank |
| ContactsApi.RevalidateCleaned | exam-solutions/assignment5/main.py:94-118 | for a body without a blank phone or company, validating the cleaned body again gives the same result |
| ContactsApi.RevalidateBlankPhone | exam-solutions/assignment5/main.py:114 | a whitespace-only phone is kept as the empty string, and revalidating the cleaned body drops it to `None` |
| ContactsApi.ModelAgreesWithHandler | exam-solutions/assignment5/main.py:94-118 | where the pydantic model accepts a body, the handler's check accepts it with the same name and email, and phone and company differ only by an empty string |
| ContactsApi.StatusCode | exam-solutions/assignment5/main.py:70-75 | the status is 2xx exactly for the success outcomes |
| ContactsApi.GetContacts | exam-solutions/assignment5/main.py:120-163 | returns a page of at most `limit` matching rows, in the requested order, with the count of all matches; the page is the `[offset, offset + limit)` window of the matches sorted in that order |
| ContactsApi.GetContact | exam-solutions/assignment5/main.py:165-181 | 404 exactly when no row has the id, otherwise that row |
| ContactsApi.CreateContact | exam-solutions/assignment5/main.py:183-212 | 422 with the validation messages, 409 for a taken email, otherwise 201 with the new row appended; nothing changes unless created |
| ContactsApi.UpdateContact | exam-solutions/assignment5/main.py:214-250 | 422 with the messages, 404 for an absent id, 409 for an email held by another row, otherwise 200 with that row overwritten |
| ContactsApi.DeleteContact | exam-solutions/assignment5/main.py:252-266 | 404 exactly when the id was absent, otherwise 204; the row is removed |
| ContactsApi.CreateCaseVariants | exam-solutions/assignment5/main.py:113 | two emails that differ only in case or surrounding whitespace cannot both be created: the second gets 409 |
| HealthBot.IsMedicalQuery | exam-solutions/assignment6/app.py:85-93 | the safety-keyword loop; characterised by HealthBot.MedicalQueryMeans |
| HealthBot.ContainsAnyMeans | exam-solutions/assignment6/app.py:116 | `any(word in text ...)` holds exactly when some word occurs in the text |
| HealthBot.MedicalQueryMeans | exam-solutions/assignment6/app.py:85-93 | a message is medical exactly when some stored safety keyword occurs in its lower-cased form |
| HealthBot.ListResponse | exam-solutions/assignment6/app.py:140-150 | the list reply; characterised by HealthBot.ListResponseLines and computed by HealthBot.FormatListResponse |
| HealthBot.BulletLines | exam-solutions/assignment6/app.py:146-147 | one bullet line per item, in item order |
| HealthBot.ListResponseLines | exam-solutions/assignment6/app.py:140-150 | a non-empty list response is the header, one bullet line per item in order, then the disclaimer |
| HealthBot.FormatListResponse | exam-solutions/assignment6/app.py:140-150 | the loop builds the list response: the empty-list sentence, or header, bullet lines and disclaimer |
| HealthBot.AppendBulletLines | exam-solutions/assignment6/app.py:146-147 | the loop appends one bullet line per item, in order |
| HealthBot.MealPlanResponse | exam-solutions/assignment6/app.py:152-168 | the meal-plan reply; characterised by HealthBot.MealPlanLines and computed by HealthBot.FormatMealPlan |
| HealthBot.MealLines | exam-solutions/assignment6/app.py:159-162 | there is at most one line per meal |
| HealthBot.MealLinesInOrder | exam-solutions/assignment6/app.py:159-162 | the meal lines are those of the meals present, in the order breakfast, lunch, snack, dinner |
| HealthBot.MealLinesSingle | exam-solutions/assignment6/app.py:162 | with newline-free entries, every meal line is one line |
| HealthBot.MealPlanLines | exam-solutions/assignment6/app.py:152-168 | a non-empty plan response is the header, one line per present meal in order, the tips line, then the disclaimer |
| HealthBot.AppendMealLines | exam-solutions/assignment6/app.py:159-162 | the meal loop appends exactly the meal lines of the plan |
| HealthBot.FormatMealPlan | exam-solutions/assignment6/app.py:152-168 | builds the meal-plan response: the no-plan sentence for an empty plan, otherwise header, meals, tips and disclaimer |
| HealthBot.FirstTrue | exam-solutions/assignment6/app.py:133-135 | the first matching plan is chosen: none exactly when no plan matches |
| HealthBot.PlanMatchList | exam-solutions/assignment6/app.py:134 | each plan is tested by the name-or-word rule |
| HealthBot.FirstTrueAt | exam-solutions/assignment6/app.py:133-135 | a match with no match before it is the one the loop stops at |
| HealthBot.FirstPlanChosen | exam-solutions/assignment6/app.py:133-136 | the first plan the message asks for gives the meal-plan response, its name title-cased |
| HealthBot.NoPlanFallback | exam-solutions/assignment6/app.py:137-138 | with no plan asked for, the stored fallback text answers, or the built-in one when there is none |
| HealthBot.FindResponse | exam-solutions/assignment6/app.py:107-138 | the ordered topic rules; characterised by HealthBot.FindResponseRules |
| HealthBot.FindResponseRules | exam-solutions/assignment6/app.py:107-138 | a medical message gets the safety response; otherwise a do's word gets the do's list; with no topic word the meal plans and the fallback decide |
| HealthBot.DosShadowDonts | exam-solutions/assignment6/app.py:116-120 | a non-medical message with "dont", "don't", "donts" or "don'ts" always gets the do's list |
| HealthBot.PlanTitleKeepsName | exam-solutions/assignment6/app.py:135 | the title-cased plan name equals the stored name up to case |
| HealthBot.CapitalisedPlanNeverMatches | exam-solutions/assignment6/app.py:109-134 | a plan whose name and every word of it hold a capital letter never matches a lower-cased message |
| HealthBot.UpperNeverInLowered | exam-solutions/assignment6/app.py:109-134 | a string with a capital letter never occurs in one without |
| HealthBot.BotResponse | exam-solutions/assignment6/app.py:195-270 | the reply to a non-blank message; characterised by HealthBot.BotResponseRules |
| HealthBot.BotResponseRules | exam-solutions/assignment6/app.py:195-270 | a medical message always gets the safety response; without an answer from the model the reply is the knowledge-base response; otherwise it is the stripped answer |
| HealthBot.Recent | exam-solutions/assignment6/app.py:189-191 | keeps the last five entries, or all when there are fewer |
| HealthBot.RecentTwice | exam-solutions/assignment6/app.py:264-273 | trimming after each of two appends is trimming once after both |
| HealthBot.ChatSession.constructor | exam-solutions/assignment6/app.py:243-244 | a new session has an empty history |
| HealthBot.ChatSession.AddToChatHistory | exam-solutions/assignment6/app.py:177-193 | appends the entry and keeps the last five, the new entry last |
| HealthBot.ChatSession.Chat | exam-solutions/assignment6/app.py:251-282 | a missing or blank message gets 400 and leaves the history; otherwise the stripped message and the reply are the last two entries of the trimmed history |
| HealthBot.ChatSession.Converse | exam-solutions/assignment6/app.py:263-273 | the user entry and then the bot entry are appended, the history trimmed to five, and the two end it |
| HealthBot.ChatSession.ClearHistory | exam-solutions/assignment6/app.py:294-298 | the history becomes empty |
| Sales.CalculateTotal | exam-solutions/assignment2/file_handler.py:19-30 | the total is non-negative for non-negative inputs, zero when either is zero, and the price for one unit |
| Sales.ParseLine | exam-solutions/assignment2/file_handler.py:50-63 | a line is skipped exactly when blank; wrong field count exactly when it has other than three parts, counting them; any record passes every check |
| Sales.ParseFields | exam-solutions/assignment2/file_handler.py:65-83 | three fields give a record exactly when the stripped quantity reads as an integer, the stripped price as a number, the stripped name is not empty and neither number is negative, and the record holds those values |
| Sales.FieldRefusals | exam-solutions/assignment2/file_handler.py:65-83 | the refusal of three fields is, in this order of precedence, the unreadable quantity, the unreadable price, the empty name, the negative quantity, the negative price, each reported exactly when it is the first check to fail |
| Sales.ThreeFieldLine | exam-solutions/assignment2/file_handler.py:53-65 | a non-blank line with three fields is decided by its three fields |
| Sales.LineRecord | exam-solutions/assignment2/file_handler.py:53-80 | a non-blank line with three fields is a record exactly when its fields convert and pass the checks, and the record holds the stripped name and the converted numbers |
| Sales.SplitThree | exam-solutions/assignment2/file_handler.py:60 | a line of three comma-free fields splits into those fields |
| Sales.NumeralField | exam-solutions/assignment2/file_handler.py:65-68 | a written whole number has no comma, nothing to strip, and `int()` and `float()` read it back |
| Sales.PriceField | exam-solutions/assignment2/file_handler.py:66-68 | a written price `w.f` has no comma, nothing to strip, and `float()` reads its exact value |
| Sales.PlainLine | exam-solutions/assignment2/file_handler.py:53-61 | a clean name and two plain fields joined by commas make a non-blank line with those three fields |
| Sales.WrittenFields | exam-solutions/assignment2/file_handler.py:65-80 | the fields written from a valid record convert back to that record |
| Sales.ParseSaleLine | exam-solutions/assignment2/file_handler.py:53-80 | a line written from a clean name, a quantity and a price `w.f` (with or without fraction digits) parses back to that record, the price read as `w + f / 10^len(f)` |
| Sales.QuantityCheckedFirst | exam-solutions/assignment2/file_handler.py:67-68 | a bad quantity is reported before the price is looked at |
| Sales.ReadSales | exam-solutions/assignment2/file_handler.py:32-88 | `read_sales_data` on the lines; characterised by Sales.ReadSalesSucceeds, ReadSalesFails, ReadSalesRecords and OneRecordPerLine, and computed by Sales.ReadSalesData |
| Sales.Classify | exam-solutions/assignment2/file_handler.py:51-57 | one outcome per line |
| Sales.RecordsAppend | exam-solutions/assignment2/file_handler.py:80 | a new record is appended after the earlier ones |
| Sales.GatherSucceeds | exam-solutions/assignment2/file_handler.py:46-88 | the outcomes are gathered exactly when none is bad |
| Sales.GatherFails | exam-solutions/assignment2/file_handler.py:50-83 | a failure names a line from 1, which is bad with that fault, and no earlier line is bad |
| Sales.GatherRecords | exam-solutions/assignment2/file_handler.py:80-88 | a success returns the records in line order |
| Sales.ReadSalesSucceeds | exam-solutions/assignment2/file_handler.py:46-88 | reading succeeds exactly when no line is bad |
| Sales.ReadSalesFails | exam-solutions/assignment2/file_handler.py:50-83 | a failure reports the first bad line by its 1-based number, with its fault |
| Sales.ReadSalesRecords | exam-solutions/assignment2/file_handler.py:80-88 | the records read are those of the lines in order |
| Sales.RecordsValid | exam-solutions/assignment2/file_handler.py:70-80 | records of valid outcomes are valid |
| Sales.RecordsAreValid | exam-solutions/assignment2/file_handler.py:70-80 | every record read has a name, and a non-negative quantity and price |
| Sales.OneRecordPerOutcome | exam-solutions/assignment2/file_handler.py:55-80 | without a bad outcome, there is one record per non-blank outcome |
| Sales.NonBlankAgree | exam-solutions/assignment2/file_handler.py:55-57 | outcomes that are blank exactly where the lines are blank count the same non-blank lines |
| Sales.OneRecordPerLine | exam-solutions/assignment2/file_handler.py:55-80 | a successful read holds one record per non-blank line |
| Sales.GatherStep | exam-solutions/assignment2/file_handler.py:51-83 | one more line extends the gathered records or fails with that line's number |
| Sales.GatherFailureStays | exam-solutions/assignment2/file_handler.py:63-83 | once a prefix of the lines fails, the whole read fails the same way |
| Sales.ReadSalesData | exam-solutions/assignment2/file_handler.py:46-88 | the loop returns the records of the lines, or the error of the first bad line |
| Sales.ErrorMessage | exam-solutions/assignment2/file_handler.py:63-83 | every error message starts with "Line n: " for the line's number |
| Sales.ProcessSalesData | exam-solutions/assignment2/file_handler.py:100-112 | one summary per sale, in order, holding its name, quantity, price and total |
| Sales.RevenueCons | exam-solutions/assignment2/file_handler.py:127-132 | the revenue of an item and the rest is its total plus the rest's revenue |
| Sales.RevenueBounds | exam-solutions/assignment2/file_handler.py:127-132 | with non-negative totals, the revenue is non-negative and at least each item's total |
| Sales.ValidRevenue | exam-solutions/assignment2/file_handler.py:100-132 | the revenue of valid sales is non-negative |
| Sales.TotalRevenue | exam-solutions/assignment2/file_handler.py:127-132 | the loop sums the totals of all items |
| StudentMarks.HasNameTail | exam-solutions/assignment1/student_marks.py:39 | a name present but not first is in the rest |
| StudentMarks.IndexOf | exam-solutions/assignment1/student_marks.py:39 | finds the position of a present name |
| StudentMarks.Put | exam-solutions/assignment1/student_marks.py:39 | `students[name] = marks` overwrites the marks of a present name in place, or adds the name at the end; names stay distinct and no other entry changes |
| StudentMarks.Enter | exam-solutions/assignment1/student_marks.py:27-39 | a blank name is refused; marks are stored exactly when the name is not blank and the marks read as a number within 0..100 |
| StudentMarks.PutKeepsAccepted | exam-solutions/assignment1/student_marks.py:35-39 | storing a clean name with marks in range keeps every entry clean and in range |
| StudentMarks.EnterKeepsAccepted | exam-solutions/assignment1/student_marks.py:27-39 | entering keeps every stored name stripped and non-empty and every mark within 0..100 |
| StudentMarks.CalculateAverage | exam-solutions/assignment1/student_marks.py:50-54 | zero for no students, otherwise the average times the count is the sum |
| StudentMarks.SumAtMost | exam-solutions/assignment1/student_marks.py:54 | marks at most a bound sum to at most the count times that bound |
| StudentMarks.SumAtLeast | exam-solutions/assignment1/student_marks.py:54 | marks at least a bound sum to at least the count times that bound |
| StudentMarks.AverageAtMost | exam-solutions/assignment1/student_marks.py:50-54 | the average is at most any bound on every mark |
| StudentMarks.AverageBounds | exam-solutions/assignment1/student_marks.py:50-54 | the average lies between any lower and upper bound on every mark |
| StudentMarks.MaxOf | exam-solutions/assignment1/student_marks.py:61 | the maximum bounds every mark and is some student's mark |
| StudentMarks.NamesWithMembers | exam-solutions/assignment1/student_marks.py:62 | a name is listed exactly when some student with it has that mark |
| StudentMarks.FindAboveAverage | exam-solutions/assignment1/student_marks.py:69-71 | the above-average names in entry order; characterised by StudentMarks.AboveAverageMembers |
| StudentMarks.AboveAverageMembers | exam-solutions/assignment1/student_marks.py:69-71 | a name is listed exactly when some student with it scored above the average |
| StudentMarks.FindTopScorers | exam-solutions/assignment1/student_marks.py:56-63 | nothing exactly for no students; otherwise the names with the maximum mark, which bounds every mark and is attained |
| StudentMarks.TopScorers | exam-solutions/assignment1/student_marks.py:56-63 | the top scorers are not empty, are exactly those with the top mark, and the top mark is at least the average |
| StudentMarks.Names | exam-solutions/assignment1/student_marks.py:67 | the names of the entries, in entry order |
| StudentMarks.Insert | exam-solutions/assignment1/student_marks.py:67 | inserting adds the name to the multiset |
| StudentMarks.InsertSorted | exam-solutions/assignment1/student_marks.py:67 | inserting into a sorted list keeps it sorted |
| StudentMarks.SortNamesCorrect | exam-solutions/assignment1/student_marks.py:67 | sorting gives a sorted permutation of the names |
| StudentMarks.GetSortedStudents | exam-solutions/assignment1/student_marks.py:65-67 | `sorted(students.keys())`; characterised by StudentMarks.SortedStudents and SortedStudentsDistinct |
| StudentMarks.SortedStudents | exam-solutions/assignment1/student_marks.py:65-67 | the sorted list is sorted, a permutation of the names, and holds exactly the names entered |
| StudentMarks.TwiceCounted | exam-solutions/assignment1/student_marks.py:67 | a value at two positions occurs at least twice |
| StudentMarks.SortedStudentsDistinct | exam-solutions/assignment1/student_marks.py:65-67 | the sorted list of dictionary keys has no repeats |
| StudentMarks.DistinctCount | exam-solutions/assignment1/student_marks.py:19-39 | each name occurs at most once among the keys |
| StudentMarks.StatusOf | exam-solutions/assignment1/student_marks.py:110 | "Above Average" exactly above the average, "Below Average" exactly below, "Average" exactly at it |
| StudentMarks.StatusAgreesWithList | exam-solutions/assignment1/student_marks.py:69-110 | a student is in the above-average list exactly when their status is "Above Average" |
| StudentMarks.SumAtMaximum | exam-solutions/assignment1/student_marks.py:54 | marks at most a bound that sum to the count times it all equal it |
| StudentMarks.NobodyAboveMean | exam-solutions/assignment1/student_marks.py:69-71 | if nobody is above a mean, everybody is at it |
| StudentMarks.NobodyAboveAverage | exam-solutions/assignment1/student_marks.py:50-103 | when "No students scored above average", every student has exactly the average |

## Left out

- File and console I/O are not modelled. This covers `open`, `input()`, `print`, writing `sales_summary.txt` and `student_results.txt`, and `FileNotFoundError`. The sales file is a sequence of lines, and a student entry is one name and one marks text.
- The retry loop of `collect_student_data` and its five-student count are not modelled. `Enter` models one attempt, and `KeyboardInterrupt` is left out.
- SQLite mechanics are not modelled: connections, commits, SQL text and `lastrowid`. The table is a sequence of rows and `AUTOINCREMENT` is a `nextId` counter that is never reused.
- The order of rows that tie on the sort key, and the order of `created_at` strings, are represented but not tied to SQLite's exact tie-breaking.
- LIKE wildcards (`%` and `_` inside a search term) are not modelled. The search is an ASCII-case-insensitive substring test on name or email, which is what LIKE does for a term without wildcards.
- Timestamps (`datetime.now()`) are parameters.
- The no-op `created_at` loop of the list handler is not modelled.
- The 500 responses for unexpected exceptions are not modelled.
- FastAPI and Flask routing, dependency injection, JSON encoding and the Flask session are not modelled. The history lives in a `ChatSession` object.
- The `index` route, which clears the history on a new session, is not modelled. Neither are the `/health` routes or the 404 handler.
- `ContactsApi.GetContacts` takes the query constraints `1 <= limit <= 50`, `offset >= 0` and an order of `asc` or `desc` as preconditions. FastAPI enforces these before the handler runs. Python's trailing-newline match of the `$` anchor is not modelled.
- The pydantic `ContactBase` is modelled on its own (`ContactModels`) because the handlers take a plain `dict`. Its response models (`ContactResponse`, `ContactsListResponse`, `ErrorResponse`) only describe JSON and are left out.
- The OpenAI call is the `Assistant` parameter of `HealthBot.BotResponse` (no client, an answer, or a failed call). The system prompt and the model settings are left out.
- Loading `kb.json` is not modelled. The knowledge base is a value, with `FallbackKnowledgeBase` standing for `_get_fallback_kb`.
- The emoji and bullet literals of the chatbot are kept character for character as the source file spells them.
- Text.Lower and Text.Title treat only ASCII letters as cased. Python's full Unicode case mapping is not modelled.
- Numerals.ParseDecimal accepts only plain decimal numerals with an optional sign: digits with an optional fractional part. Python's `float()` also accepts exponents, `inf`, `nan` and underscores, and rounds to binary floating point. The real value here is exact.
- Numerals.ParseInt does not accept underscores between digits, which Python's `int()` does. Its digits are the ASCII digits `0`-`9` only (`Numerals.IsDigit`), so the other Unicode decimal digits that Python's `int()` accepts are refused.
- Numerals.ParseDecimal, like `Numerals.ParseInt`, reads only the ASCII digits `0`-`9`; the other Unicode decimal digits that Python's `float()` accepts are refused.
- Sales.ErrorMessage models the `int()` and `float()` messages without Python's `repr` escaping of the offending text.
- The `:.0f` and `:.1f` formatting of amounts and marks is not modelled.
- StudentMarks.FindTopScorers returns `None` for no students where the source returns `[]`. The source's callers never reach that case, because they return early on an empty dictionary.
- Python dictionaries keep insertion order. The model keeps the entries in a sequence in that order, so the above-average and top-scorer lists come out in insertion order too.
- Concurrency between requests is not modelled.
