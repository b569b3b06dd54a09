# mini-auth-site: a Dafny model of the authentication server

This project models the authentication core of `server.js`. That core is an
Express server with five parts. `POST /api/register` validates a name, an
e-mail and a password, stores a bcrypt hash in an SQLite `users` table and
sets a JWT session cookie. `POST /api/login` checks credentials and answers
with one generic error, so the reply does not tell a wrong password from an
unknown e-mail. The `authRequired` guard verifies the cookie's token and
attaches its payload to the request. `GET /api/me` echoes that payload.
`POST /api/logout` clears the cookie.

Modules, leaf first:

- `JsText` (`jstext.dfy`): JavaScript string semantics used by the handlers.
  It covers optional body fields and their truthiness, the `\s` class of
  JavaScript regular expressions, and `length` in UTF-16 code units.
- `EmailPattern` (`email.dfy`): the language of `^\S+@\S+\.\S+$`, taken from
  the structure of the expression. It also holds a two-scan decision
  procedure, proved to accept exactly that language.
- `Bcrypt` (`bcrypt.dfy`): `bcrypt.hash` and `bcrypt.compare`. A digest is a
  symbolic term over the salt, the cost and the key bcrypt derives. The
  `$2b$` key schedule takes the UTF-8 encoded password, cut to 72 bytes,
  appends a zero byte, and reads that stream cyclically for 72 bytes of key
  material. A U+0000 in the password is an ordinary zero byte of the stream.
  The module proves a round trip. It proves that passwords of up to 72
  bytes without U+0000, or with encodings of equal length, are told apart.
  It also proves two kinds of collision: passwords sharing a 72-character
  prefix, and `p` against `p + "\0" + p`, whose stream is `p`'s repeated.
- `Jwt` (`jwt.dfy`): `jwt.sign` and `jwt.verify` with HS256. A signature is
  a symbolic MAC term, and `iat` and `exp` are whole seconds. The module
  proves a round trip with expiry, and rejection of tampered tokens and of
  tokens signed under another secret.
- `Store` (`store.dfy`): the `users` table as a class. Its `rows` field maps
  each e-mail to its row, and `nextId` is the AUTOINCREMENT counter. Keying
  the map by e-mail makes the UNIQUE constraint structural. `Valid()` also
  states that ids are distinct and below the counter.
- `Server` (`server.dfy`): the handlers as methods with the source's
  early returns, plus `makeToken` and `cookieOptions`. `req.user` is a field
  of a `Request` object that the guard assigns.
- `Flows` (`flows.dfy`): whole sessions on a fresh table. One covers
  register, login, `me`, logout and `me` again. The other is the concrete
  Ada example.

The clock (`Date.now()`) and bcrypt's random salt are parameters. The
process configuration (`JWT_SECRET`, `NODE_ENV`, `LOCAL_HTTPS`) is a
`Config` value.

Strings are modelled as sequences of Unicode scalar values (Dafny's
`char`). Behaviour of the code worth stating up front:

- A successful register or login answers 200: `res.json` keeps the default
  status.
- A digest accepts every password whose 72 bytes of cyclic key stream
  match its own. Passwords of at most 72 bytes without U+0000 are told
  apart; longer ones collide on their first 72 bytes, and a U+0000 lets a
  repetition of the password collide with it.
  `Bcrypt.ShortPasswordsDistinguished`, `Bcrypt.LongPasswordsCollide`,
  `Bcrypt.RepeatedPasswordCollides` and `Bcrypt.NulKeepsWhatFollows` state
  these cases.
- `GET /api/me` returns the whole verified payload. That is the claims
  `{id, email, name}` plus the `iat` and `exp` that signing adds.
- The "at least 6 characters" rule counts UTF-16 code units. Three
  characters outside the Basic Multilingual Plane (emoji, for example) pass.

## Model

| member | source | states |
|---|---|---|
| `JsText.Truthy` | server.js:83 | a body field passes `!field` exactly when it is present and non-empty (the same test guards login at line 105) |
| `JsText.Utf16Length` | server.js:85 | `password.length` lies between the number of characters and twice it |
| `JsText.Utf16LengthInBmp` | server.js:85 | `password.length` equals the number of characters exactly when every character is in the Basic Multilingual Plane |
| `EmailPattern.Test` | server.js:84 | the e-mail check accepts a string if and only if it is `a@b.c` with `a`, `b`, `c` non-empty runs of non-`\s` characters |
| `EmailPattern.PatternByPositions` | server.js:84 | that language is the set of strings with no whitespace, an `@` at index i >= 1 and a `.` at index j with i+2 <= j <= length-2 |
| `Bcrypt.KeyStream` | server.js:90 | the stream bcrypt's key schedule cycles through is at most 73 bytes and ends with the terminating zero byte |
| `Bcrypt.Cycle` | server.js:90 | reading a stream cyclically gives exactly `n` bytes that start with the stream and repeat with its length as period |
| `Bcrypt.Key` | server.js:90 | the key material is exactly 72 bytes: the key stream, then that stream repeated |
| `Bcrypt.AsciiEncoding` | server.js:90 | a password below U+0080 reaches bcrypt as its own code points, one byte each |
| `Bcrypt.ShortKey` | server.js:90 | the key of a password of at most 72 bytes starts with its whole encoding, then a zero byte when there is room |
| `Bcrypt.Compare` | server.js:109 | `compare(password, digest)` holds exactly when the password derives the key the digest was made from |
| `Bcrypt.Hash` | server.js:90 | the hash records cost 10 and the salt; the hashed password compares equal to it, and so does exactly every password with the same 72-byte key |
| `Bcrypt.Utf8Injective` | server.js:90 | distinct strings of scalar values have distinct UTF-8 encodings, so nothing is lost before the 72-byte cut |
| `Bcrypt.ShortPasswordsDistinguished` | server.js:109 | for passwords of at most 72 bytes, `compare(other, hash(p))` holds if and only if `other == p`, when neither contains U+0000 and also when their encodings have the same length |
| `Bcrypt.RepeatedPasswordCollides` | server.js:109 | `p + "\0" + p` is accepted by the hash of `p`, for every `p` |
| `Bcrypt.NulKeepsWhatFollows` | server.js:109 | a U+0000 does not end the password: `"abcdef\0xyz"` is rejected by the hash of `"abcdef"` |
| `Bcrypt.LongPasswordsCollide` | server.js:109 | two passwords sharing a prefix of 72 or more characters are accepted by each other's hash |
| `Jwt.Verify` | server.js:61 | a token is accepted if and only if it carries the secret's signature over its own payload and the clock second is before `exp`; the result is that payload |
| `Jwt.Sign` | server.js:54 | the token carries the claims unchanged, with `exp = iat + 604800` and `iat` the issuing second, and it verifies at exactly the instants before `exp` |
| `Jwt.TamperedRejected` | server.js:61 | a valid token whose payload is replaced is rejected |
| `Jwt.OtherSecretRejected` | server.js:61 | a token signed under one secret is rejected under any other |
| `Store.UserTable.constructor` | server.js:42-50 | a fresh table is empty, with the id counter at 1 |
| `Store.UserTable.FindByEmail` | server.js:87 | the lookup finds a row exactly when the e-mail is in the table, and that row has this exact e-mail |
| `Store.UserTable.Insert` | server.js:91 | a duplicate e-mail is rejected with no change; otherwise exactly one row is added under a never-used id, the other rows are unchanged, and the table invariant (one row per e-mail, distinct ids) is kept |
| `Server.CookieOptions` | server.js:70-77 | the cookie is `httpOnly`, `sameSite` is `"lax"`, `maxAge` is 604800000 ms (the token lifetime), and `secure` is on exactly in production or when `LOCAL_HTTPS` is `"true"` |
| `Server.Project` | server.js:112 | the public user is the row's id, name and e-mail, with no hash |
| `Server.MakeToken` | server.js:53-55 | the token carries the user's id, e-mail and name and verifies under the server secret when issued |
| `Server.Register` | server.js:80-100 | the first failing check decides: missing field gives 400 "Tüm alanları doldurun.", bad e-mail shape gives 400 "Geçerli bir e-posta girin.", short password gives 400 "Şifre en az 6 karakter olmalı.", taken e-mail gives 409 "Bu e-posta zaten kayıtlı."; every failure leaves the table unchanged; success adds exactly the row with the next id and the password's hash, returns `{id, name, email}` and sets the token cookie; the 500 path is unreachable and the table invariant is kept |
| `Server.Login` | server.js:102-120 | a missing field gives 400 and nothing else does; an unknown e-mail and a wrong password both give the one reply 401 "E-posta veya şifre hatalı."; success returns the stored row's `{id, name, email}` with a token cookie; the table is only read |
| `Server.HasToken` | server.js:58-59 | the guard finds a token exactly when the `token` cookie is present and is not the empty string |
| `Server.CheckCookie` | server.js:61 | a cookie is accepted exactly when it is a token signed with the secret over its own payload and not yet expired; the result is that payload |
| `Server.AuthRequired` | server.js:57-67 | no token gives 401 "Oturum bulunamadı.", a token that fails verification gives 401 "Oturum süresi dolmuş veya geçersiz.", and both leave `req.user` unchanged; a valid token sets `req.user` to its payload and passes |
| `Server.Me` | server.js:122-124 | the reply is 200 with exactly the payload attached to the request |
| `Server.MeRoute` | server.js:122 | guard then handler: the two 401 replies, or 200 with the verified payload of the cookie's token; `req.user` becomes that payload on success and is unchanged otherwise |
| `Server.Logout` | server.js:126-129 | whatever the request, the reply is 200 `{ok: true}` and clears the `token` cookie; the table is not touched |
| `Flows.SessionLifecycle` | server.js:80-129 | on a fresh table the first user gets id 1; login succeeds exactly when bcrypt cannot tell the attempt from the password, and otherwise gives the generic 401; `me` with the registration cookie returns that identity until the token expires; after logout the same cookie still works |
| `Flows.AdaExample` | server.js:80-129 | registering Ada at `ada@x.com` gives user 1 and a `token` cookie; repeating it gives 409 "Bu e-posta zaten kayıtlı."; logging in with `wrong` gives 401 "E-posta veya şifre hatalı."; logout without a session gives 200 and clears the cookie |

## Left out

- The bcrypt one-way function, its salt generation and its work factor (server.js:90, server.js:109). A digest is a symbolic term, the salt is a parameter, and the cost 10 is only recorded.
- JWT cryptography and encoding (server.js:54, server.js:61). HMAC-SHA256, base64url and JSON are not modelled: a signature is a symbolic term. A cookie value is either a decoded token or a string that does not parse as one. cookie-parser's `j:` JSON cookies are not modelled.
- SQLite persistence, WAL mode and the `created_at` column (server.js:40-50). Only the map, the UNIQUE e-mail and the AUTOINCREMENT counter are kept.
- Concurrent requests. Each handler runs atomically, so a second insert of the same e-mail cannot get past the lookup. The 500 reply that the UNIQUE constraint produces under a race is modelled but unreachable.
- Request bodies whose fields are not strings (numbers, booleans, arrays). In the source such values reach `bcrypt.hash` or `.length` with JavaScript coercions. They end in the 500 "Sunucu hatası." path or pass checks unexpectedly. Fields here are absent or strings.
- Unexpected exceptions and `console.error` logging (server.js:96-99, server.js:116-119). With string fields and atomic handlers no handler throws, so the 500 path of login is not modelled.
- Express, cors, helmet and cookie-parser setup, trust proxy, and reading `PORT`, `JWT_SECRET` (with its default) and `NODE_ENV` from the environment (server.js:1-37). The configuration enters as a `Config` value.
- The `res.clearCookie` and `res.cookie` header formatting. A reply records the cookie action as data.
- Static files, the dashboard and catch-all routes, and the HTTP/HTTPS listener with its certificate loading (server.js:131-152).
- Strings are sequences of Unicode scalar values. A JavaScript string may hold lone surrogates, which `JSON.parse` produces from `\uD800`-style escapes; those are not representable here.
- Bcrypt.Utf8Injective: holds for strings of scalar values only. Node.js encodes a lone surrogate as U+FFFD, so distinct JavaScript passwords can reach bcrypt as the same bytes and distinct e-mails can reach the same SQLite row (server.js:87-88, server.js:109); the model does not capture these collisions.
- Bcrypt.ShortPasswordsDistinguished: does not decide every pair of short passwords of different encoded lengths with U+0000 in them (`Bcrypt.RepeatedPasswordCollides` shows some collide); it holds only for strings of scalar values, so collisions through lone surrogates are not captured.
- Response timing. An unknown e-mail returns before `bcrypt.compare` runs, while a known e-mail costs a cost-10 bcrypt run (server.js:108-109). The replies are identical, but the time taken tells the two cases apart; the model has no notion of time spent.
- public/script.js. It is browser UI; its trimming of form fields happens before a request reaches the server.
