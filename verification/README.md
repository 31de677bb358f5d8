# Role-based content dashboard: access control and state transitions

This project models a small role-based CRUD service in Dafny. Accounts have one of three roles: `admin`, `editor` or `viewer`. The service manages posts, accounts and an audit log behind JSON routes, and a browser client shows role-specific pages.

The model covers:

- **Server.** The route gates, applied in order: authenticate, then check the role. Then the controllers' fixed order of checks: validation, existence (404), ownership or admin (403), and only then the mutation.
  - Posts are listed, created, partially updated and deleted.
  - Accounts are listed, have their role changed, and are deleted.
  - Registration and login issue a session token holding the account's id and role, valid for one day.
  - The audit log listing returns the newest 50 entries.
- **Browser client.**
  - The page guard.
  - The landing-page redirect.
  - The session context over the browser's key-value storage.
  - The Bearer-header setter.
  - The role filter of the API documentation.
  - The list reducers of the editor's content page and the admin's user page.
- **Agreement between the two sides.** Whether the content page offers Edit/Delete exactly where the server would allow the change. Whether the lists the pages keep after a change equal what a fresh listing would return.

How the model is built:

- **Store.** The store is in memory: three sequences of documents in natural order, plus a counter for fresh ids. `findById`/`findOne` is a first-match search.
- **Roles.** Roles travel as strings. The closed variant `Role` meets them through `Name`/`Parse`.
- **Outside the model.** The authentication middleware is not part of this model. It appears as a parameter: the acting account, or none. Password hashing and matching, the clock and the server's replies to client requests are parameters too.
- **Results.** Each controller returns its response together with the resulting store. Each client handler returns the request it sends together with the page's next state.

Files: `common.dfy`, `roles.dfy`, `store.dfy` and `http.dfy` hold the shared vocabulary. There is one module per controller, router and client component. `agreement.dfy` holds the client/server agreement lemmas.

The service's documented route table (client/src/app/components/ApiDocs.jsx:54-60) lists only `_id`, username and role for the account listing. The code returns every field except the password, email included, and the model follows the code.

## Model

| member | source | states |
|---|---|---|
| Roles.Parse | server/controllers/userController.js:12-14 | A role string is accepted exactly when it is the name of one of the three roles, and then names that role |
| Roles.ParseName | server/controllers/userController.js:12 | The whitelist recognises every role's own name, and no two roles share a name |
| Roles.Admits | client/src/app/components/roleGuard.js:16 | A role string passes a list of roles only if it is whitelisted and its role is in the list; an empty list admits nobody |
| Roles.AdminsAdmit | server/routes/logRoutes.js:7 | The admin-only gate, shared by the user and log routers, lets through exactly the role string "admin" |
| Roles.AdmitsNames | client/src/app/components/roleGuard.js:16 | A list of roles admits a role's own name exactly when that role is in the list |
| Roles.AdmitsIffParsed | server/routes/contentRoutes.js:16-18 | Passing a role gate is the same as the role string being whitelisted and its role appearing in the gate's list |
| Http.GenerateToken | server/controllers/authController.js:5-7 | The token names the account and its role and expires one day (86400 seconds) after issue |
| Store.PostIndexOf | server/controllers/contentController.js:24 | With unique ids, looking up a post by its own id finds exactly that post |
| Store.UserIndexOf | server/controllers/userController.js:16 | With unique ids, looking up an account by its own id finds exactly that account |
| ContentController.MayModify | server/controllers/contentController.js:28-31 | An author may always change their own post and an admin any post; anyone else changing another's post is refused |
| ContentController.Merge | server/controllers/contentController.js:35-36 | The merged field is the sent value or the stored one: a non-empty value replaces, an empty one keeps |
| ContentController.MergeLaws | server/controllers/contentController.js:35-36 | An empty value keeps the old field and a non-empty one replaces it; the merge is idempotent, never invents a value, and is empty only if both inputs are |
| ContentController.Populate | server/controllers/contentController.js:4 | A listed post carries its own fields; its author is present exactly when an account with the author's id exists, and then shows that account's id, username and role |
| ContentController.ListPosts | server/controllers/contentController.js:3-6 | Every post is listed in store order, whoever asks, and the store is unchanged |
| ContentController.CreatePost | server/controllers/contentController.js:8-18 | 201 with a post whose author is the acting account, with the sent title and content. Exactly one post is appended under a fresh id; accounts and logs are untouched; store validity is kept |
| ContentController.UpdatePost | server/controllers/contentController.js:20-40 | An unknown id gets 404 before any ownership check, and a non-owner non-admin gets 403; both leave the store unchanged. Otherwise only that post changes: id, author and creation time are kept, and title and content follow the merge rule |
| ContentController.DeletePost | server/controllers/contentController.js:42-58 | 404 before 403, and neither changes the store. Otherwise exactly that post is removed, the others keep their order, and the id is gone |
| ContentController.UpdateIdempotent | server/controllers/contentController.js:20-40 | Sending the same update twice leaves the store as sending it once |
| UserController.ListUsers | server/controllers/userController.js:3-6 | Every account in store order, each with its id, username, email and role and no password; the store is unchanged |
| UserController.UpdateRole | server/controllers/userController.js:8-23 | A non-whitelisted role gets 400 even for an unknown id, and a whitelisted role on an unknown id gets 404; neither changes the store. Otherwise only that account's role changes; the other fields and accounts are unchanged |
| UserController.DeleteUser | server/controllers/userController.js:25-31 | An unknown id gets 404 with no change. Otherwise exactly that account is removed, and the posts are untouched: there is no cascade |
| AuthController.Register | server/controllers/authController.js:9-35 | The username clash is reported before the email clash, and both leave the store unchanged. Otherwise exactly one account is added with the hashed password. Reply id equals token id, and stored, reply and token roles are equal; expiry is one day after issue |
| AuthController.Login | server/controllers/authController.js:37-62 | A missing email or password gets 400 before any lookup. An unknown email and a wrong password get the identical 400 "Invalid Credentials". Success returns the stored account with a token for its stored id and role, expiring one day later |
| AuthController.RegisterThenLogin | server/controllers/authController.js:9-58 | Logging in after registering, with a password check that accepts the password against its hash, returns a token for the new account's id and the registered role |
| LogController.SortNewestFirst | server/controllers/logController.js:6 | The sort returns the same entries (as a multiset), with timestamps never increasing |
| LogController.ListLogs | server/controllers/logController.js:4-7 | At most 50 entries, newest first, each from the store. All entries when there are at most 50. Every omitted entry is no newer than every returned one |
| LogController.ListLogsHandler | server/controllers/logController.js:3-9 | The handler answers 200 with the newest min(n, 50) of the n stored entries, newest first, drawn from the log with multiplicity, every stored entry when n ≤ 50, and no omitted entry newer than one returned; the store is unchanged |
| ContentRoutes.Route | server/routes/contentRoutes.js:11-18 | Unauthenticated requests stop first. Create, update and delete stop for roles other than admin and editor. A request reaches the controller exactly when neither gate stops it, and a refused request leaves the store unchanged |
| ContentRoutes.ListingOpenToAll | server/routes/contentRoutes.js:13 | Any authenticated account, viewer included, gets the full listing |
| ContentRoutes.MutationSucceedsIff | server/routes/contentRoutes.js:17-18 | Through the router, an update or delete succeeds exactly for an admin on an existing post, or for an editor on an existing post they wrote. A viewer is refused by the gate, even as the author or on an unknown id |
| ContentRoutes.ForeignEditScenario | server/routes/contentRoutes.js:16-18 | After editor A creates a post, editor B's update of it gets 403 and an admin's update gets 200 |
| UserRoutes.Route | server/routes/userRoutes.js:11-16 | All three account operations are gated the same way: unauthenticated first, then any non-admin. Exactly admin requests reach the controller |
| UserRoutes.GateBeforeValidation | server/routes/userRoutes.js:12-15 | A non-admin sending an unknown role is refused by the gate and never gets the 400 |
| UserRoutes.AdminMayChangeSelf | server/controllers/userController.js:8-31 | Nothing compares the target with the actor: an admin may demote or delete their own account |
| LogRoutes.Route | server/routes/logRoutes.js:6-9 | Authentication is checked before the role. Only an admin gets the log listing, and the store never changes |
| RoleGuard.Guard | client/src/app/components/roleGuard.js:9-19 | While loading, no navigation. Signed out goes to "/login", and a role outside the page's list goes to "/". A signed-in account stays exactly when its role is allowed |
| Home.Destination | client/src/app/page.js:9-21 | No stored account goes to "/login". admin, editor and viewer go to their pages, and any other role goes to "/login" |
| Home.PageRoles | client/src/app/admin/logs/page.js:18 | The guarded pages and their guard lists: the admin logs page (here) and the admin users page (admin/users/page.js:35) admit only admin; the editor content page (editor/content/page.js:42) admits admin and editor; the viewer content page (viewer/content/page.js:24) admits only viewer; no other path is guarded |
| Home.NoRedirectLoop | client/src/app/page.js:17-19 | For every known role, the guard of the page the landing page picks lets the account the provider loads from the same storage stay |
| ClientSession.StoredUser | client/src/app/context/AuthContext.js:11-13 | The stored account is read exactly when the "user" entry holds an account object |
| AuthContext.Initial | client/src/app/context/AuthContext.js:8 | The session starts out loading, with storage untouched |
| AuthContext.Mount | client/src/app/context/AuthContext.js:10-14 | After mounting, the session is the stored account or signed out, never loading; storage is only read |
| AuthContext.Login | client/src/app/context/AuthContext.js:16-20 | Both keys are written and the account is signed in; every other key is untouched |
| AuthContext.Logout | client/src/app/context/AuthContext.js:22-26 | Both keys are removed and the session is signed out; every other key is untouched |
| AuthContext.LogoutLaws | client/src/app/context/AuthContext.js:16-26 | Logging out is idempotent. Logging in and then out leaves what logging out alone leaves, with no session keys |
| AuthContext.ReloadRestoresSession | client/src/app/context/AuthContext.js:10-20 | A reload after login restores the same session; a reload after logout comes back signed out |
| ClientApi.SetAuthToken | client/src/app/api.js:7-13 | A non-empty token sets the Authorization header to "Bearer " + token. Anything else removes the header. No other header changes |
| ClientApi.SetAuthTokenLaws | client/src/app/api.js:7-13 | Setting the same token twice is setting it once. Reading the header back gives exactly the token that was set, or nothing |
| EditorContent.ReplaceById | client/src/app/editor/content/page.js:68-70 | Exactly the entries with the edited id are replaced; the length and the other entries are unchanged |
| EditorContent.RemoveById | client/src/app/editor/content/page.js:100 | The entries left are exactly those with another id, in their original order, each kept as many times as it occurred; no entry with that id remains |
| EditorContent.SubmitPost | client/src/app/editor/content/page.js:58-81 | An empty title or content is a no-op with no request, and a failed request changes nothing. An edit replaces the entries with that id by the reply; a create prepends the reply to the old list. Success clears the form |
| EditorContent.EditPost | client/src/app/editor/content/page.js:83-88 | The form takes the post's title and content and is bound to its id; the list and the dialog are unchanged |
| EditorContent.ConfirmDelete | client/src/app/editor/content/page.js:90-93 | The dialog opens for that id; the list and the form are unchanged |
| EditorContent.EditThenSubmit | client/src/app/editor/content/page.js:58-88 | Editing a post and saving at once sends that post's own title and content under its id; on success the entries with that id become the reply, the rest stay, and the form clears |
| EditorContent.ConfirmThenDelete | client/src/app/editor/content/page.js:90-107 | Asking to delete a post and confirming sends the delete for exactly that post, closes the dialog, clears the pending id and leaves the form; on success the list loses exactly that post's entries |
| EditorContent.ControlsShown | client/src/app/editor/content/page.js:219 | As written: a signed-in admin sees controls everywhere, another account only where the populated author is itself, so never on a bare author id; with no session, controls show on exactly the posts without a populated author |
| EditorContent.ControlsShownFixed | client/src/app/editor/content/page.js:219 | Corrected: never without a session; for a signed-in account it agrees with the page on populated and missing authors, and on a bare id it shows controls to an admin or to the author |
| EditorContent.DeletePost | client/src/app/editor/content/page.js:95-107 | Without a pending id, nothing happens. Otherwise the delete is sent, and on success every entry with that id leaves the list while every other entry keeps all its copies, order kept. The list is unchanged on failure, and in every case the dialog closes and the pending id clears |
| AdminUsers.StartEdit | client/src/app/admin/users/page.js:163-166 | Edit mode opens for that row, preset to the row's current role |
| AdminUsers.CancelEdit | client/src/app/admin/users/page.js:150-153 | Edit mode ends and the selected role is cleared; the rows are unchanged |
| AdminUsers.SetRoleById | client/src/app/admin/users/page.js:56-58 | Only the role of rows with that id changes; every other row and field is unchanged |
| AdminUsers.UpdateRole | client/src/app/admin/users/page.js:52-64 | An empty selected role is a no-op with no request, and on failure nothing changes. On success only the role of that id's rows changes, edit mode ends and the selection clears |
| AdminUsers.StartThenCancel | client/src/app/admin/users/page.js:150-166 | Cancelling right after starting an edit leaves the page as a plain cancel would |
| AdminUsers.SaveRightAfterStart | client/src/app/admin/users/page.js:52-64 | Saving right after starting the edit of a listed row with a unique id sends that row's own role; on success the table is unchanged and edit mode ends; a row without a role sends nothing |
| AdminUsers.DeleteUser | client/src/app/admin/users/page.js:66-75 | Nothing happens without confirmation. On success exactly that id's rows leave the list, and every other row keeps all its copies in order; on failure the list is unchanged |
| ApiDocs.Listed | client/src/app/components/ApiDocs.jsx:256-261 | "All roles" entries are shown to every session and every entry to an admin; an entry marked only "Admin only" is shown to admins alone; a session that is neither admin nor editor sees only the "All roles" entries |
| ApiDocs.ShownApis | client/src/app/components/ApiDocs.jsx:254-263 | The shown entries are an order-preserving subsequence of the table holding every copy of each entry the filter lists and nothing else |
| ApiDocs.ShownByRole | client/src/app/components/ApiDocs.jsx:256-261 | An admin sees every entry. An editor sees every copy of the "All roles" entries and of those not marked "Admin only", and nothing else. Anyone else, including a signed-out visitor, sees every copy of the "All roles" entries and nothing else |
| ApiDocs.ContentTable | client/src/app/components/ApiDocs.jsx:89-158 | The content table has four rows carrying the four descriptions in order |
| ApiDocs.DocMarks | client/src/app/components/ApiDocs.jsx:93-150 | Of the four documented descriptions, only the listing's contains "All roles", and none contains "Admin only" |
| ApiDocs.EditorSeesAllContentApis | client/src/app/components/ApiDocs.jsx:254-262 | With the documented table, an editor is shown all four content endpoints |
| ApiDocs.ViewerSeesOneContentApi | client/src/app/components/ApiDocs.jsx:254-262 | With the documented table, a viewer is shown only the listing endpoint |
| ApiDocs.Tabs | client/src/app/components/ApiDocs.jsx:227-236 | The auth and content tabs are always present. The users and logs tabs are present exactly for an admin |
| Agreement.Listing | client/src/app/editor/content/page.js:52-53 | The content page's list after loading holds one entry per stored post, in store order, with the post's id, title and content, and a populated author exactly when the author's account exists |
| Agreement.UserRows | client/src/app/admin/users/page.js:46-47 | The admin's table after loading holds one row per stored account, in store order, with its id, username, email and role |
| Agreement.ListedAuthor | server/controllers/contentController.js:4 | A listed entry's author names the post's author exactly when that account exists, and is never a bare id |
| Agreement.ListedControlsMatchServer | client/src/app/editor/content/page.js:219 | On a fresh listing, the page as written offers Edit/Delete exactly when the server's ownership rule allows the change, while the signed-in account exists |
| Agreement.CreatedPostHidesControls | client/src/app/editor/content/page.js:219 | As written, an editor's just-created post shows no Edit/Delete although the server allows both; the corrected condition shows them |
| Agreement.EditedPostHidesControls | client/src/app/editor/content/page.js:219 | As written, the same holds for a post the editor has just edited |
| Agreement.SignedOutSeesOrphanControls | client/src/app/editor/content/page.js:219 | As written, without a signed-in account, Edit/Delete shows on posts whose author is gone; the corrected condition shows nothing |
| Agreement.FixedControlsMatchServer | client/src/app/editor/content/page.js:219 | The corrected condition offers Edit/Delete exactly when the server allows the change, on listed entries and on entries made from replies alike, and never without an account |
| Agreement.DeleteKeepsListing | client/src/app/editor/content/page.js:95-107 | After the server's answer to a delete, the page's list equals a fresh listing of the resulting store |
| Agreement.CreateKeepsListing | client/src/app/editor/content/page.js:72-73 | After a create, the page's list is the fresh listing with the new post moved from last to first, its author field aside |
| Agreement.EditKeepsListingText | client/src/app/editor/content/page.js:63-70 | After the server's answer to an edit, the page's list matches a fresh listing in id, title and content; only the edited entry's author field can differ |
| Agreement.RoleChangeKeepsTable | client/src/app/admin/users/page.js:52-64 | After the server's answer to a role change, the admin's table equals a fresh account listing of the resulting store |
| Agreement.AccountDeleteKeepsTable | client/src/app/admin/users/page.js:66-75 | After the server's answer to an account delete, the admin's table equals a fresh account listing of the resulting store |
| Agreement.TabsMatchGates | client/src/app/components/ApiDocs.jsx:227-236 | The users and logs tabs are offered to a signed-in account exactly when the server's user and log routes answer that account; a session without an account gets neither tab and is refused by both routes |
| Agreement.DeletedAuthorsPostsRemain | server/controllers/userController.js:25-31 | Deleting an account keeps its posts listed, shown without an author; as written, only an admin is then offered Edit/Delete on them |

## Left out

- The code of the authentication middleware (`protect`, `authorizeRoles`) and its status codes are not part of this model. The acting account is a parameter, and refusals carry no status code. The role decision of `authorizeRoles` is modelled as `Roles.Admits` in each router.
- Token signing, verification, secrets and expiry checking are left out. A token is the record {id, role, exp}, with `exp` one day after issue in seconds (section 4.1.4 of RFC 7519).
- Password hashing and `matchPassword` belong to an account model that is not part of this model. They are parameters `hash` and `matches`.
- The post and account schemas are not part of this model. Neither are required fields or a role enum on registration: any role string is stored as sent.
- A missing body field is modelled as the empty string. Both are falsy for the `||` merge and the login check.
- Database errors are left out: the 500 replies of register and login, malformed-id cast errors and async behaviour.
- The `populate("user", "username")` of the log listing is left out. The order among log entries with equal timestamps is whatever the insertion sort yields.
- The browser's `JSON.parse` is left out. A stored "user" entry is either an account object or other text, and other text reads as no account.
- ClientSession.StoredUser: other text does not always mean signed out in the source (client/src/app/context/AuthContext.js:12). Text that is not JSON makes the provider throw. The text `null` signs out without an error, but the landing page throws on it (client/src/app/page.js:15-17). Other truthy JSON such as `{}` or `123` becomes a truthy session without a role; falsy JSON such as `0`, `false` or `""` reads as signed out, as in the model.
- AuthContext.Mount: for such role-less JSON the session is signed out in the model, so RoleGuard.Guard sends the visitor to "/login"; the source's guard sends that session to "/" instead (client/src/app/components/roleGuard.js:16-18).
- Rendering, skeletons, `alert`/`confirm` dialogs and scrolling are left out. The confirmation is a boolean parameter, and the server's answer is a parameter of each client handler.
- RoleGuard.Guard: "at most one navigation per evaluation" holds by construction, since `Nav` is no navigation or exactly one.
- AuthController.Login: "login never changes the store" holds by construction, since it returns only a response.
- Server bootstrap, configuration, the login and register pages, the navbar and the theme toggle are left out. Of the viewer's content page and the admin's logs page, only the roles each passes to its guard are modelled (Home.PageRoles).

## Findings

| source | as written | input that shows it | evidently intended | confidence | as-written member | corrected member |
|---|---|---|---|---|---|---|
| client/src/app/editor/content/page.js:219 | `author?._id === user?.id` reads `_id` of the author, but the create and update replies return the author as a bare id (server/controllers/contentController.js:17, 39), so `_id` is undefined | an editor creates or edits a post; the entry that replaces it has a bare author id, and Edit/Delete disappear from the editor's own post | Edit/Delete follow the server's rule "author or admin" whatever shape the author field has | high (not executed) | Agreement.CreatedPostHidesControls | Agreement.FixedControlsMatchServer |
| client/src/app/editor/content/page.js:219 | with no signed-in account, `author?._id === user?.id` compares `undefined === undefined` on a post whose author account is gone (listed with a `null` author) | the session turns signed-out while the page still holds such a post; the condition is true for that post | no Edit/Delete without a signed-in account | low (not executed) | Agreement.SignedOutSeesOrphanControls | Agreement.FixedControlsMatchServer |
