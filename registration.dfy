/** Self-registration of a website user
    (frappe_utils/website_customization/api/registration.py): create the User,
    reuse the Customer whose email matches or create a Company customer, and
    link the user to the customer's portal users once. The User and Customer
    tables are sequences of records held by a `Site`. */
module Registration {
  import opened Records
  import Text

  datatype User = User(name: string, email: string, firstName: Option<string>, lastName: Option<string>,
                       enabled: int, sendWelcomeEmail: int, newPassword: string, mobileNo: string,
                       userType: string, roles: seq<string>)

  datatype Customer = Customer(name: string, customerName: string, customerType: string,
                               taxId: Option<string>, emailId: string, mobileNo: string,
                               customerGroup: string, territory: string, portalUsers: seq<string>)

  /** The request payload; `contactName` and `gst` may be absent. */
  datatype Request = Request(businessName: string, contactName: Option<string>, email: string,
                             phone: string, password: string, gst: Option<string>)

  /** Selling Settings defaults read when a customer is created ("" when unset). */
  datatype SellingSettings = SellingSettings(customerGroup: string, territory: string)

  datatype Response = Registered(user: string, customer: string) | Failed(message: string)

  const UserExistsMessage := "User with this email already exists"
  const GenericFailure := "Registration failed. Please try again or contact support."

  /** Where, if anywhere, a step inside the `try` block raises: the user's
      save, adding the Customer role (which saves the user again), the lookup
      of an existing customer, the new customer's save, or the save after
      linking the portal user. A step that is not reached cannot raise. */
  datatype FailPoint = NoFailure | UserSaveFails | RoleSaveFails | LookupFails | CustomerSaveFails | LinkSaveFails

  /** What `register` reads besides the request and the tables: whether the
      Customer role exists, the Selling Settings defaults, the names the User
      and Customer naming rules give the new documents, and where a step
      raises, if anywhere. */
  datatype Env = Env(customerRoleExists: bool, selling: SellingSettings, newUserName: string,
                     newCustomerName: string, failAt: FailPoint)

  /** The contact-name split: nothing for an absent or empty name; otherwise the
      stripped name, cut at its first space when the raw name contains one. */
  function SplitContactName(contactName: Option<string>): (r: Option<(string, string)>)
    ensures r.None? <==> contactName.None? || contactName.value == ""
    ensures r.Some? && ' ' !in contactName.value ==> r.value == (Text.Strip(contactName.value), "")
    ensures r.Some? && ' ' in contactName.value && ' ' !in Text.Strip(contactName.value)
            ==> r.value == (Text.Strip(contactName.value), "")
    ensures r.Some? && ' ' in Text.Strip(contactName.value)
            ==> Text.Strip(contactName.value) == r.value.0 + [' '] + r.value.1 && ' ' !in r.value.0
  {
    match contactName
    case None => None
    case Some(name) =>
      if name == "" then None
      else if ' ' in name then
        var parts := Text.SplitFirstSpace(Text.Strip(name));
        Some((parts.0, if parts.1.Some? then parts.1.value else ""))
      else Some((Text.Strip(name), ""))
  }

  /** " Bob" gives first name "Bob" and an empty last name. */
  lemma LeadingSpaceName()
    ensures SplitContactName(Some(" Bob")) == Some(("Bob", ""))
  {
    assert Text.LeadingSpace(" Bob") == 1 by {
      assert " Bob"[1..] == "Bob";
      assert Text.LeadingSpace("Bob") == 0;
    }
    assert " Bob"[1..] == "Bob";
    assert Text.TrailingEnd("Bob") == 3;
    assert Text.Strip(" Bob") == "Bob";
  }

  /** "Ann  Lee" gives "Ann" and " Lee": only the first space separates. */
  lemma DoubleSpaceName()
    ensures SplitContactName(Some("Ann  Lee")) == Some(("Ann", " Lee"))
  {
    var name := "Ann  Lee";
    NothingToStrip(name);
    FirstSpaceAt(name, 3);
    assert name[..3] == "Ann" && name[4..] == " Lee";
  }

  lemma NothingToStrip(name: string)
    requires |name| > 0 && !Text.IsWhitespace(name[0]) && !Text.IsWhitespace(name[|name| - 1])
    ensures Text.Strip(name) == name
  {
  }

  lemma FirstSpaceAt(name: string, i: nat)
    requires i < |name| && name[i] == ' ' && ' ' !in name[..i]
    ensures IndexOf(name, ' ') == i
  {
  }

  /** `value or default`. */
  function OrDefault(value: string, default: string): (r: string)
    ensures value != "" ==> r == value
    ensures value == "" ==> r == default
  {
    if value == "" then default else value
  }

  /** The User document the endpoint builds and saves first, under the name
      `name` its naming rule gives it. */
  function NewUser(req: Request, name: string): User
  {
    var names := SplitContactName(req.contactName);
    User(name, req.email,
         if names.Some? then Some(names.value.0) else None,
         if names.Some? then Some(names.value.1) else None,
         1, 0, req.password, req.phone, "Website User", [])
  }

  /** The user after `add_roles("Customer")`, which only runs when the role exists. */
  function WithCustomerRole(user: User, customerRoleExists: bool): User
  {
    if customerRoleExists then user.(roles := user.roles + ["Customer"]) else user
  }

  /** The Customer document created when no customer has the email. */
  function NewCustomer(req: Request, name: string, selling: SellingSettings): Customer
  {
    Customer(name, req.businessName, "Company", req.gst, req.email, req.phone,
             OrDefault(selling.customerGroup, "All Customer Groups"),
             OrDefault(selling.territory, "All Territories"), [])
  }

  /** `frappe.db.get_value("Customer", {"email_id": email}, "name")`: the first
      customer whose email matches. */
  function FindCustomer(customers: seq<Customer>, email: string): (r: Option<nat>)
    ensures r.None? <==> forall i :: 0 <= i < |customers| ==> customers[i].emailId != email
    ensures r.Some? ==> r.value < |customers| && customers[r.value].emailId == email
    ensures r.Some? ==> forall i :: 0 <= i < r.value ==> customers[i].emailId != email
  {
    if customers == [] then None
    else if customers[0].emailId == email then Some(0)
    else match FindCustomer(customers[1..], email)
      case None => None
      case Some(i) => Some(i + 1)
  }

  /** The customer after the portal-user step: `user` is appended unless present. */
  function LinkUser(customer: Customer, user: string): (r: Customer)
    ensures r == customer.(portalUsers := r.portalUsers)
    ensures user in r.portalUsers
    ensures user in customer.portalUsers ==> r == customer
    ensures user !in customer.portalUsers ==> r.portalUsers == customer.portalUsers + [user]
  {
    if user in customer.portalUsers then customer
    else customer.(portalUsers := customer.portalUsers + [user])
  }

  /** Linking never duplicates: afterwards the user occurs once if it occurred
      at most once, and every other portal user is untouched. */
  lemma LinkUserOnce(customer: Customer, user: string)
    requires multiset(customer.portalUsers)[user] <= 1
    ensures multiset(LinkUser(customer, user).portalUsers)[user] == 1
    ensures forall u :: u != user ==>
              multiset(LinkUser(customer, user).portalUsers)[u] == multiset(customer.portalUsers)[u]
  {
    if user in customer.portalUsers {
      assert user in multiset(customer.portalUsers);
    }
  }

  /** The portal-user loop: is `user` already one of `portalUsers`? */
  method IsLinked(portalUsers: seq<string>, user: string) returns (linked: bool)
    ensures linked <==> user in portalUsers
  {
    linked := false;
    var i := 0;
    while i < |portalUsers|
      invariant 0 <= i <= |portalUsers|
      invariant user !in portalUsers[..i]
    {
      if portalUsers[i] == user {
        linked := true;
        break;
      }
      i := i + 1;
    }
    if !linked {
      assert portalUsers[..i] == portalUsers;
    }
  }

  /** The User and Customer tables. */
  datatype Tables = Tables(users: seq<User>, customers: seq<Customer>)

  predicate UserExists(users: seq<User>, name: string)
  {
    exists i :: 0 <= i < |users| && users[i].name == name
  }

  /** The whole of `register` as a function of the tables before the call: the
      tables the call leaves (its writes inside the `try` are not undone when a
      later step raises) and the response. */
  function RegisterSpec(t: Tables, req: Request, env: Env): (Tables, Response)
  {
    if UserExists(t.users, req.email) then (t, Failed(UserExistsMessage))
    else if env.failAt == UserSaveFails then (t, Failed(GenericFailure))
    else
      var saved := NewUser(req, env.newUserName);
      if env.failAt == RoleSaveFails && env.customerRoleExists then
        (Tables(t.users + [saved], t.customers), Failed(GenericFailure))
      else
        var user := WithCustomerRole(saved, env.customerRoleExists);
        var users := t.users + [user];
        if env.failAt == LookupFails then (Tables(users, t.customers), Failed(GenericFailure))
        else match FindCustomer(t.customers, req.email)
        case Some(ci) =>
          var c := t.customers[ci];
          if user.name in c.portalUsers then (Tables(users, t.customers), Registered(user.name, c.name))
          else if env.failAt == LinkSaveFails then (Tables(users, t.customers), Failed(GenericFailure))
          else (Tables(users, t.customers[ci := LinkUser(c, user.name)]), Registered(user.name, c.name))
        case None =>
          if env.failAt == CustomerSaveFails then (Tables(users, t.customers), Failed(GenericFailure))
          else
            var c := NewCustomer(req, env.newCustomerName, env.selling);
            if env.failAt == LinkSaveFails then (Tables(users, t.customers + [c]), Failed(GenericFailure))
            else (Tables(users, t.customers + [LinkUser(c, user.name)]), Registered(user.name, c.name))
  }

  /** An existing user blocks the registration: nothing is created. */
  lemma ExistingUserChangesNothing(t: Tables, req: Request, env: Env)
    requires UserExists(t.users, req.email)
    ensures RegisterSpec(t, req, env) == (t, Failed(UserExistsMessage))
  {
  }

  /** A step that raises after the user's save leaves the saved user behind
      and no new or changed customer when it comes before the customer step,
      and the answer is the generic failure. */
  lemma EarlyFailureKeepsUser(t: Tables, req: Request, env: Env)
    requires !UserExists(t.users, req.email)
    requires env.failAt == LookupFails || (env.failAt == RoleSaveFails && env.customerRoleExists)
    ensures var (after, resp) := RegisterSpec(t, req, env);
            && resp == Failed(GenericFailure)
            && after.customers == t.customers
            && |after.users| == |t.users| + 1 && after.users[..|t.users|] == t.users
            && after.users[|t.users|].name == env.newUserName
            && after.users[|t.users|].email == req.email
            && ("Customer" in after.users[|t.users|].roles <==> env.failAt == LookupFails && env.customerRoleExists)
  {
    var after := RegisterSpec(t, req, env).0;
    assert after.users[..|t.users|] == t.users;
  }

  /** On success the new user is added, the customer whose email matches is
      reused (no customer is added), and that customer lists the user once. */
  lemma ReusedCustomerIsLinked(t: Tables, req: Request, env: Env, ci: nat)
    requires !UserExists(t.users, req.email) && env.failAt == NoFailure
    requires FindCustomer(t.customers, req.email) == Some(ci)
    requires multiset(t.customers[ci].portalUsers)[env.newUserName] <= 1
    ensures var (after, resp) := RegisterSpec(t, req, env);
            && resp == Registered(env.newUserName, t.customers[ci].name)
            && after.users == t.users + [WithCustomerRole(NewUser(req, env.newUserName), env.customerRoleExists)]
            && |after.customers| == |t.customers|
            && (forall i :: 0 <= i < |t.customers| && i != ci ==> after.customers[i] == t.customers[i])
            && multiset(after.customers[ci].portalUsers)[env.newUserName] == 1
  {
    LinkUserOnce(t.customers[ci], env.newUserName);
  }

  /** On success without a matching customer, one Company customer is created
      with the request's data and the settings' defaults, linked to the user. */
  lemma NewCustomerIsCreated(t: Tables, req: Request, env: Env)
    requires !UserExists(t.users, req.email) && env.failAt == NoFailure
    requires forall i :: 0 <= i < |t.customers| ==> t.customers[i].emailId != req.email
    ensures var (after, resp) := RegisterSpec(t, req, env);
            && resp == Registered(env.newUserName, env.newCustomerName)
            && after.customers[..|t.customers|] == t.customers
            && |after.customers| == |t.customers| + 1
            && var c := after.customers[|t.customers|];
            && c.customerName == req.businessName && c.customerType == "Company" && c.taxId == req.gst
            && c.emailId == req.email && c.mobileNo == req.phone
            && (env.selling.customerGroup == "" ==> c.customerGroup == "All Customer Groups")
            && (env.selling.territory == "" ==> c.territory == "All Territories")
            && c.portalUsers == [env.newUserName]
  {
    var after := RegisterSpec(t, req, env).0;
    assert after.customers[..|t.customers|] == t.customers;
  }

  /** The site's tables. */
  class Site {
    var users: seq<User>
    var customers: seq<Customer>

    constructor (users0: seq<User>, customers0: seq<Customer>)
      ensures users == users0 && customers == customers0
    {
      users, customers := users0, customers0;
    }

    /** `register`, in the environment `env`. */
    method Register(req: Request, env: Env) returns (resp: Response)
      modifies this
      ensures (Tables(users, customers), resp) == RegisterSpec(old(Tables(users, customers)), req, env)
    {
      if UserExists(users, req.email) {
        return Failed(UserExistsMessage);
      }
      if env.failAt == UserSaveFails {
        return Failed(GenericFailure);
      }
      var user := NewUser(req, env.newUserName);
      users := users + [user];

      if env.customerRoleExists {
        if env.failAt == RoleSaveFails {
          return Failed(GenericFailure);
        }
        user := user.(roles := user.roles + ["Customer"]);
        users := users[|users| - 1 := user];
      }
      assert users == old(users) + [WithCustomerRole(NewUser(req, env.newUserName), env.customerRoleExists)];
      if env.failAt == LookupFails {
        return Failed(GenericFailure);
      }

      var customer: Customer;
      var index: nat;
      var found := FindCustomer(customers, req.email);
      if found.Some? {
        index := found.value;
        customer := customers[index];
      } else {
        if env.failAt == CustomerSaveFails {
          return Failed(GenericFailure);
        }
        customer := NewCustomer(req, env.newCustomerName, env.selling);
        index := |customers|;
        customers := customers + [customer];
      }

      var linked := IsLinked(customer.portalUsers, user.name);
      if !linked {
        if env.failAt == LinkSaveFails {
          return Failed(GenericFailure);
        }
        customer := customer.(portalUsers := customer.portalUsers + [user.name]);
        customers := customers[index := customer];
        if found.None? {
          assert customers == old(customers) + [LinkUser(NewCustomer(req, env.newCustomerName, env.selling), user.name)];
        }
      }
      resp := Registered(user.name, customer.name);
    }
  }
}
