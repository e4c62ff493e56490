/**
 * Clients of the services that run short stories end to end on empty stores: the
 * widget story (register, create a widget with 10 in stock at 2.00, restock 5, sell
 * 20), and a password reset whose link is used too late and then in time.
 */
module Scenario {
  import opened Common
  import opened ItemModel
  import opened Repositories
  import opened ServiceErrors
  import opened HttpErrors
  import ResetToken
  import UserService
  import ItemService
  import LogService
  import AuthRoutes

  method WidgetScenario() returns (widget: Item, loggedQuantities: seq<int>)
    ensures widget.quantity == 0 && widget.sold == 15 && widget.soldPrice == 30.0
    ensures loggedQuantities == [5, 20]
  {
    var users := new UserRepository();
    var items := new ItemRepository();
    var logs := new LogRepository();
    var registered := UserService.RegisterUser(users, Some("Alice Smith"), "alice@example.com", "5550100",
                                               Some("correct horse"), s => "hashed:" + s, 0);
    assert registered.Success?;
    var added := ItemService.AddItem(users, items, 0, Some("Widget"), None, Some(10), Some(2.0), None,
                                     Some("tools"), 1);
    assert added.Success? && 0 in items.items;
    var restocked := LogService.IncreaseQuantity(users, items, logs, 0, 0, Some(5), Some("restock"), 2);
    assert restocked.Success? && items.items[0].quantity == 15;
    var sold := LogService.DecreaseQuantity(users, items, logs, 0, 0, Some(20), Some("big sale"), 3);
    assert sold.Success?;
    widget := items.items[0];
    loggedQuantities := [logs.logs[0].quantity, logs.logs[1].quantity];
  }

  /**
   * Spring: a reset requested at time 0 is refused by the JWT parser eleven minutes
   * later, although the stored one-hour expiry has not passed; the same link used at
   * the ten-minute mark resets the password. `decode` reads the claims the token was
   * signed with.
   */
  method SpringLateResetRefused(generate: (Id, Time) -> string, decode: string -> Option<ResetToken.Claims>)
    returns (late: Result<(), ServiceError>, onTime: Result<(), ServiceError>)
    requires decode(generate(0, 0)) == Some(ResetToken.IssuedClaims(0, 0))
    ensures late == Failure(TokenRejected)
    ensures onTime == Success(())
  {
    var users := new UserRepository();
    var registered := UserService.RegisterUser(users, Some("Alice Smith"), "alice@example.com", "5550100",
                                               Some("correct horse"), s => "hashed:" + s, 0);
    assert users.users.Keys == {0};
    var requested := UserService.InitiatePasswordReset(users, "alice@example.com", generate, true, 0);
    assert users.users.Keys == {0} && users.users[0].resetToken == Some(generate(0, 0));
    var token := generate(0, 0);
    late := UserService.ResetPassword(users, token, "new password", decode, s => "hashed:" + s, 660_000);
    onTime := UserService.ResetPassword(users, token, "new password", decode, s => "hashed:" + s, 600_000);
  }

  /**
   * Express: `jwt.verify` still accepts the link one millisecond before its signed
   * expiry and refuses it at the expiry instant.
   */
  method ExpressResetAtExpiry(sign: (Id, Time) -> string, verify: string -> Option<ResetToken.Claims>)
    returns (atExpiry: Result<(), HttpError>, justBefore: Result<(), HttpError>)
    requires verify(sign(0, 0)) == Some(ResetToken.IssuedClaims(0, 0))
    ensures atExpiry == Failure(AuthRoutes.InvalidToken)
    ensures justBefore == Success(())
  {
    var users := new UserRepository();
    var saved := users.Insert(UserModel.NewUser("Alice Smith", "alice@example.com", "5550100", "hashed", 0));
    assert users.users.Keys == {0};
    var requested := AuthRoutes.ForgotPassword(users, "alice@example.com", sign, true, 0);
    assert users.users.Keys == {0} && users.users[0].resetToken == Some(sign(0, 0));
    var token := sign(0, 0);
    atExpiry := AuthRoutes.ResetPassword(users, token, "new password", verify, s => "hashed:" + s, 600_000);
    justBefore := AuthRoutes.ResetPassword(users, token, "new password", verify, s => "hashed:" + s, 599_999);
  }

  /**
   * Express with the mail helper as shipped, whose send always fails: `forgot-password`
   * for a known email never replies, yet the signed token and its one-hour expiry stay
   * stored.
   */
  method ExpressForgotPasswordUnanswered(sign: (Id, Time) -> string)
    returns (r: AuthRoutes.Outcome, stored: Option<string>, expires: Option<Time>)
    ensures r == AuthRoutes.Unanswered
    ensures stored == Some(sign(0, 0)) && expires == Some(3_600_000)
  {
    var users := new UserRepository();
    var saved := users.Insert(UserModel.NewUser("Alice Smith", "alice@example.com", "5550100", "hashed", 0));
    assert users.users.Keys == {0};
    r := AuthRoutes.ForgotPassword(users, "alice@example.com", sign, false, 0);
    assert users.users.Keys == {0};
    stored := users.users[0].resetToken;
    expires := users.users[0].resetTokenExpire;
  }
}
